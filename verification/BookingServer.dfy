/** The handlers and the stores they share, updated in place. Each method is what a handler does
    between two awaits, and is one step of the protocol. */
module BookingServer {
  import opened Slots
  import opened Text
  import opened Ids
  import opened Protocol
  import opened Executions

  datatype Result<+T> = Ok(value: T) | Err(error: Error) {
    predicate IsFailure() { Err? }

    function PropagateFailure<U>(): Result<U>
      requires IsFailure()
    {
      Err(error)
    }

    function Extract(): T
      requires !IsFailure()
    {
      value
    }
  }

  datatype HoldReply = HoldReply(token: Token, start: int, end: int, expiresAt: int)

  /** A row as handed to the table, which reads the room's text as its uuid; the columns start_at and
      end_at are NOT NULL. */
  datatype Draft = Draft(room: Uuid, user: Uuid, start: int, end: Option<int>)

  /** A property of an object that a request or the database fills. */
  datatype Property<+T> = Undefined | Null | Given(value: T)

  /** The update request. Its class declares the field, so one the request leaves out is there, undefined. */
  datatype UpdateRoomDto = UpdateRoomDto(slotDurationMin: Property<int>)

  /** A room as loaded from its table. */
  class RoomEntity {
    var ownerId: Option<Uuid>
    var slotDurationMin: Property<int>

    constructor (row: Room)
      ensures ownerId == row.owner && slotDurationMin == Given(row.slotMin)
    {
      ownerId, slotDurationMin := row.owner, Given(row.slotMin);
    }

    /** `Object.assign(room, dto)` copies undefined properties too, so the loaded value is gone. */
    method Assign(dto: UpdateRoomDto)
      modifies this
      ensures ownerId == old(ownerId)
      ensures slotDurationMin == dto.slotDurationMin
    {
      slotDurationMin := dto.slotDurationMin;
    }
  }

  class Server {
    const ttl: int
    var now: int
    var rooms: map<Uuid, Room>
    var locks: map<LockKey, Lock>
    var holds: map<Token, Hold>
    var rows: seq<Row>
    var creates: map<nat, CreateRun>
    var confirms: map<nat, ConfirmRun>

    ghost function Abs(): State
      reads this
    {
      State(now, rooms, locks, holds, rows, creates, confirms)
    }

    constructor (ttl: int, now: int, rooms: map<Uuid, Room>)
      ensures Init(Abs()) && this.ttl == ttl && this.now == now && this.rooms == rooms
    {
      this.ttl, this.now, this.rooms := ttl, now, rooms;
      locks, holds, rows, creates, confirms := map[], map[], [], map[], map[];
    }

    // ----- The lock adapter -----

    /** SET key val NX EX ttl */
    method Acquire(key: LockKey, val: nat, ttl: int) returns (acquired: bool)
      modifies this`locks
      ensures acquired == !LockLive(old(Abs()), key)
      ensures locks == if acquired then old(locks)[key := Lock(val, now + ttl)] else old(locks)
    {
      acquired := !(key in locks && now < locks[key].expiry);
      if acquired {
        locks := locks[key := Lock(val, now + ttl)];
      }
    }

    /** GET key */
    method GetLock(key: LockKey) returns (v: Option<nat>)
      ensures v == if LockLive(Abs(), key) then Some(locks[key].val) else None
    {
      v := if key in locks && now < locks[key].expiry then Some(locks[key].val) else None;
    }

    /** Undisturbed, release removes the live lock with its caller's value and nothing else. */
    method Release(key: LockKey, val: nat)
      modifies this`locks
      ensures locks == if LockLive(old(Abs()), key) && old(locks)[key].val == val then old(locks) - {key}
                       else old(locks)
    {
      var v := GetLock(key);
      if v == Some(val) {
        locks := locks - {key};
      }
    }

    // ----- The bookings table -----

    /** The insert: end_at must be there, the range must be one, and no row of the room may meet it. */
    method InsertRow(id: nat, draft: Draft) returns (inserted: bool)
      modifies this`rows
      ensures inserted == (draft.end.Some? &&
                           InsertAllowed(old(rows), Row(id, draft.room, draft.user, draft.start, draft.end.value)))
      ensures inserted <==>
                && draft.end.Some? && draft.start <= draft.end.value
                && forall i, t :: 0 <= i < |old(rows)| && old(rows)[i].room == draft.room && Covers(old(rows)[i], t)
                                  ==> !(draft.start <= t < draft.end.value)
      ensures rows == if inserted then old(rows) + [Row(id, draft.room, draft.user, draft.start, draft.end.value)]
                      else old(rows)
    {
      if draft.end.None? {
        return false;
      }
      var row := Row(id, draft.room, draft.user, draft.start, draft.end.value);
      inserted := InsertAllowed(rows, row);
      InsertAllowedMeans(rows, row);
      if inserted {
        rows := rows + [row];
      }
    }

    // ----- CreateBookingHandler.execute -----

    /** The room and the checks. */
    method ValidateCreate(rid: nat, user: Uuid, room: RoomText, startAt: Option<int>) returns (r: Result<Claim>)
      requires rid !in creates
      modifies this`creates
      ensures Abs() == ValidateStep(old(Abs()), rid, user, room, startAt)
      ensures rid in creates
      ensures creates[rid] == match r case Ok(c) => Validated(c) case Err(e) => CreateFailed(e)
      ensures match r
              case Ok(c) => && Acceptable(now, rooms, room, startAt)
                            && c == Claim(user, room, startAt.value, rooms[room.id].slotMin)
              case Err(e) => Refusable(e, now, rooms, room, startAt)
    {
      ValidationCauses(now, rooms, user, room, startAt);
      if room.id !in rooms {
        r := Err(RoomNotFound);
      } else {
        var slotMin := rooms[room.id].slotMin;
        if slotMin <= 0 {
          r := Err(InvalidSlot);
        } else if startAt.None? {
          r := Err(BadStart);
        } else if startAt.value < now - 1000 {
          r := Err(PastSlot);
        } else if UtcMinutes(startAt.value) % slotMin != 0 || UtcSeconds(startAt.value) != 0
                  || UtcMilliseconds(startAt.value) != 0 {
          r := Err(MisalignedSlot);
        } else {
          r := Ok(Claim(user, room, startAt.value, slotMin));
        }
      }
      creates := creates[rid := match r case Ok(c) => Validated(c) case Err(e) => CreateFailed(e)];
    }

    method LockSlot(rid: nat, c: Claim) returns (acquired: bool)
      requires rid in creates && creates[rid] == Validated(c)
      modifies this`locks, this`creates
      ensures Abs() == AcquireStep(ttl, old(Abs()), rid)
      ensures acquired <==>
                !(LockKey(c.room, c.start) in old(locks) && now < old(locks)[LockKey(c.room, c.start)].expiry)
      ensures locks == if acquired then old(locks)[LockKey(c.room, c.start) := Lock(rid, now + ttl)] else old(locks)
      ensures rid in creates && creates[rid] == if acquired then Locked(c, now) else CreateFailed(SlotTaken)
    {
      acquired := Acquire(KeyOf(c), rid, ttl);
      creates := creates[rid := if acquired then Locked(c, now) else CreateFailed(SlotTaken)];
    }

    method WriteHold(rid: nat, c: Claim) returns (reply: HoldReply)
      requires rid in creates && creates[rid].Locked? && creates[rid].claim == c
      modifies this`holds, this`creates
      ensures Abs() == WriteHoldStep(ttl, old(Abs()), rid)
      ensures var end := c.start + c.slotMin * 60_000;
              && reply == HoldReply(Token(c.room, c.start, c.user), c.start, end, now + ttl)
              && holds == old(holds)[Token(c.room, c.start, c.user)
                                     := Hold(c.user, c.room, c.start, end, now + ttl, rid)]
    {
      WriteHoldOf(ttl, Abs(), rid, c, creates[rid].at);
      var end := c.start + c.slotMin * MINUTE;
      var token := Token(c.room, c.start, c.user);
      holds := holds[token := Hold(c.user, c.room, c.start, end, now + ttl, rid)];
      creates := creates[rid := Held(c, creates[rid].at, now)];
      reply := HoldReply(token, c.start, end, now + ttl);
    }

    /** The whole handler with nothing in between, without the early insert. */
    method CreateBooking(rid: nat, user: Uuid, room: RoomText, startAt: Option<int>) returns (r: Result<HoldReply>)
      requires rid !in creates
      modifies this
      ensures Abs() == ExecCreate(ttl, old(Abs()), rid, user, room, startAt)
      ensures rid in creates
      ensures match r
              case Ok(reply) =>
                && Acceptable(now, rooms, room, startAt) && !LockLive(old(Abs()), LockKey(room, startAt.value))
                && reply == HoldReply(Token(room, startAt.value, user), startAt.value,
                                      startAt.value + rooms[room.id].slotMin * 60_000, now + ttl)
              case Err(e) =>
                || Refusable(e, now, rooms, room, startAt)
                || (&& e == SlotTaken && Acceptable(now, rooms, room, startAt)
                    && LockLive(old(Abs()), LockKey(room, startAt.value)))
      ensures creates[rid] == match r
                              case Ok(reply) => Held(Claim(user, room, reply.start, rooms[room.id].slotMin), now, now)
                              case Err(e) => CreateFailed(e)
    {
      var c :- ValidateCreate(rid, user, room, startAt);
      var acquired := LockSlot(rid, c);
      if !acquired {
        return Err(SlotTaken);
      }
      var reply := WriteHold(rid, c);
      r := Ok(reply);
    }

    /** The handler as written: the early insert has no end, so the table refuses it and no request
        gets as far as the lock. */
    method CreateBookingAsWritten(rid: nat, user: Uuid, room: RoomText, startAt: Option<int>)
      returns (r: Result<HoldReply>)
      requires rid !in creates
      modifies this
      ensures r.Err?
      ensures if Acceptable(now, rooms, room, startAt) then r.error == SlotTaken
              else Refusable(r.error, now, rooms, room, startAt)
      ensures locks == old(locks) && holds == old(holds) && rows == old(rows) && confirms == old(confirms)
      ensures rooms == old(rooms) && now == old(now)
    {
      var c :- ValidateCreate(rid, user, room, startAt);
      var inserted := InsertRow(rid, Draft(room.id, user, c.start, None));
      if inserted {
        assert false; // the lock and the hold would follow here
      }
      r := Err(SlotTaken);
    }

    // ----- ConfirmBookingHandler.execute -----

    method ReadHold(cid: nat, user: Uuid, token: Option<Token>) returns (r: Result<Hold>)
      requires cid !in confirms
      modifies this`confirms
      ensures Abs() == ReadHoldStep(old(Abs()), cid, user, token)
      ensures cid in confirms
      ensures match r
              case Ok(h) => token.Some? && confirms[cid] == HoldRead(token.value, h, now)
              case Err(e) => confirms[cid] == ConfirmFailed(e)
      ensures match r
              case Ok(h) => HoldLive(Abs(), token.value) && holds[token.value] == h && h.user == user
              case Err(BadParams) => token.None?
              case Err(HoldExpired) => token.Some? && !HoldLive(Abs(), token.value)
              case Err(Forbidden) =>
                token.Some? && HoldLive(Abs(), token.value) && holds[token.value].user != user
              case Err(_) => false
    {
      if token.None? {
        r := Err(BadParams);
      } else if !(token.value in holds && now < holds[token.value].expiry) {
        r := Err(HoldExpired);
      } else if holds[token.value].user != user {
        r := Err(Forbidden);
      } else {
        r := Ok(holds[token.value]);
      }
      confirms := confirms[cid := match r case Ok(h) => HoldRead(token.value, h, now) case Err(e) => ConfirmFailed(e)];
    }

    method InsertBooking(cid: nat, user: Uuid, t: Token, h: Hold) returns (inserted: bool)
      requires cid in confirms && confirms[cid].HoldRead? && confirms[cid].token == t && confirms[cid].hold == h
      requires h.user == user
      modifies this`rows, this`confirms
      ensures Abs() == InsertStep(old(Abs()), cid)
      ensures inserted == InsertAllowed(old(rows), RowFor(cid, h))
      ensures rows == if inserted then old(rows) + [Row(cid, h.room.id, h.user, h.start, h.end)] else old(rows)
      ensures cid in confirms && confirms[cid] == if inserted then Inserted(t, h) else ConfirmFailed(SlotTaken)
    {
      inserted := InsertRow(cid, Draft(h.room.id, user, h.start, Some(h.end)));
      confirms := confirms[cid := if inserted then Inserted(t, h) else ConfirmFailed(SlotTaken)];
    }

    method DeleteHold(cid: nat, t: Token, h: Hold)
      requires cid in confirms && confirms[cid] == Inserted(t, h)
      modifies this`holds, this`confirms
      ensures Abs() == DeleteHoldStep(old(Abs()), cid)
      ensures holds == old(holds) - {t}
      ensures cid in confirms && confirms[cid] == HoldDeleted(t, h)
    {
      holds := holds - {t};
      confirms := confirms[cid := HoldDeleted(t, h)];
    }

    method DeleteLock(cid: nat, t: Token, h: Hold)
      requires cid in confirms && confirms[cid] == HoldDeleted(t, h)
      modifies this`locks, this`confirms
      ensures Abs() == DeleteLockStep(old(Abs()), cid)
      ensures locks == old(locks) - {LockKey(h.room, h.start)}
      ensures cid in confirms && confirms[cid] == Confirmed(t, h)
    {
      locks := locks - {LockOf(h)};
      confirms := confirms[cid := Confirmed(t, h)];
    }

    /** The whole handler with nothing in between; the reply is the id of the row. `notified` says how the
        notification at the end fares: if it fails, the caller gets an error though the row is in. */
    method ConfirmBooking(cid: nat, user: Uuid, token: Option<Token>, notified: bool) returns (r: Result<nat>)
      requires cid !in confirms
      modifies this
      ensures Abs() == ExecConfirm(old(Abs()), cid, user, token)
      ensures cid in confirms
      ensures match confirms[cid]
              case Confirmed(_, _) => r == if notified then Ok(cid) else Err(NotificationFailed)
              case ConfirmFailed(e) => r == Err(e)
              case _ => false
    {
      var h :- ReadHold(cid, user, token);
      var inserted := InsertBooking(cid, user, token.value, h);
      if !inserted {
        return Err(SlotTaken);
      }
      DeleteHold(cid, token.value, h);
      DeleteLock(cid, token.value, h);
      r := if notified then Ok(cid) else Err(NotificationFailed);
    }

    // ----- UpdateRoomHandler.execute -----

    /** The room as loaded, for its owner. */
    method LoadRoom(user: Uuid, room: Uuid) returns (r: Result<RoomEntity>)
      ensures match r
              case Ok(entity) =>
                && fresh(entity) && room in rooms && entity.ownerId == rooms[room].owner == Some(user)
                && entity.slotDurationMin == Given(rooms[room].slotMin)
              case Err(RoomNotFound) => room !in rooms
              case Err(Forbidden) => room in rooms && rooms[room].owner != Some(user)
              case Err(_) => false
    {
      if room !in rooms {
        return Err(RoomNotFound);
      }
      var entity := new RoomEntity(rooms[room]);
      if entity.ownerId != Some(user) {
        return Err(Forbidden);
      }
      r := Ok(entity);
    }

    /** The save, in whatever state it comes: an undefined property is not written, and the column is
        NOT NULL. */
    method SaveRoom(user: Uuid, room: Uuid, entity: RoomEntity) returns (r: Result<()>)
      requires entity.ownerId == Some(user) && room in rooms && rooms[room].owner == Some(user)
      modifies this`rooms
      ensures r == if entity.slotDurationMin.Null? then Err(NullColumn) else Ok(())
      ensures match entity.slotDurationMin
              case Given(d) => rooms == old(rooms)[room := Room(Some(user), d)]
              case _ => rooms == old(rooms)
      ensures Abs() == UpdateRoomStep(old(Abs()), room, user, Carried(entity.slotDurationMin))
    {
      match entity.slotDurationMin
      case Undefined => r := Ok(());
      case Null => r := Err(NullColumn);
      case Given(slotMin) =>
        rooms := rooms[room := rooms[room].(slotMin := slotMin)];
        r := Ok(());
    }

    /** The whole handler with nothing in between. */
    method UpdateRoom(user: Uuid, room: Uuid, dto: UpdateRoomDto) returns (r: Result<()>)
      modifies this`rooms
      ensures match r
              case Ok(_) => room in old(rooms) && old(rooms)[room].owner == Some(user) && !dto.slotDurationMin.Null?
              case Err(RoomNotFound) => room !in old(rooms)
              case Err(Forbidden) => room in old(rooms) && old(rooms)[room].owner != Some(user)
              case Err(NullColumn) =>
                room in old(rooms) && old(rooms)[room].owner == Some(user) && dto.slotDurationMin.Null?
              case Err(_) => false
      ensures rooms == if r.Ok? && dto.slotDurationMin.Given?
                       then old(rooms)[room := Room(Some(user), dto.slotDurationMin.value)]
                       else old(rooms)
      ensures Abs() == UpdateRoomStep(old(Abs()), room, user, Carried(dto.slotDurationMin))
    {
      var entity :- LoadRoom(user, room);
      entity.Assign(dto);
      r := SaveRoom(user, room, entity);
    }
  }

  /** What a save writes into a NOT NULL column. */
  function Carried(p: Property<int>): Option<int> { if p.Given? then Some(p.value) else None }

  // ----- Undisturbed runs -----

  lemma CreateRefused(ttl: int, s: State, rid: nat, user: Uuid, room: RoomText, start: Option<int>)
    requires rid !in s.creates
    requires var v := ValidateRequest(s.now, s.rooms, user, room, start); v.Validated? ==> LockLive(s, KeyOf(v.claim))
    ensures var v := ValidateRequest(s.now, s.rooms, user, room, start);
            ExecCreate(ttl, s, rid, user, room, start)
            == s.(creates := s.creates[rid := if v.CreateFailed? then v else CreateFailed(SlotTaken)])
  {
    var v := ValidateRequest(s.now, s.rooms, user, room, start);
    var s' := ValidateStep(s, rid, user, room, start);
    assert s'.creates[rid] == v;
    if v.Validated? {
      var s'' := AcquireStep(ttl, s', rid);
      assert s''.creates == s.creates[rid := CreateFailed(SlotTaken)];
      assert WriteHoldStep(ttl, s'', rid) == s'';
    } else {
      assert AcquireStep(ttl, s', rid) == s' && WriteHoldStep(ttl, s', rid) == s';
    }
  }

  /** An undisturbed create. Accepted, and with no live lock on the key, it leaves a lock and a hold for the
      slot, both until one TTL from now, and changes nothing else; else it changes no store, and answers
      the error of its check, or SLOT_TAKEN if a live lock is the cause. */
  lemma CreateOutcome(ttl: int, s: State, rid: nat, user: Uuid, room: RoomText, start: Option<int>)
    requires rid !in s.creates
    ensures var s' := ExecCreate(ttl, s, rid, user, room, start);
            var v := ValidateRequest(s.now, s.rooms, user, room, start);
            if !v.Validated? then s' == s.(creates := s.creates[rid := v])
            else
              var k := LockKey(room, start.value);
              if k in s.locks && s.now < s.locks[k].expiry
              then s' == s.(creates := s.creates[rid := CreateFailed(SlotTaken)])
              else
                var d := s.rooms[room.id].slotMin;
                var h := Hold(user, room, start.value, start.value + d * 60_000, s.now + ttl, rid);
                s' == s.(locks := s.locks[k := Lock(rid, s.now + ttl)],
                         holds := s.holds[Token(room, start.value, user) := h],
                         creates := s.creates[rid := Held(Claim(user, room, start.value, d), s.now, s.now)])
  {
    var v := ValidateRequest(s.now, s.rooms, user, room, start);
    ValidationCauses(s.now, s.rooms, user, room, start);
    if v.Validated? && !LockLive(s, KeyOf(v.claim)) {
      CreateLeaves(ttl, s, rid, v.claim);
    } else {
      CreateRefused(ttl, s, rid, user, room, start);
    }
  }

  lemma ReadRefused(s: State, cid: nat, user: Uuid, token: Option<Token>)
    requires cid !in s.confirms && ReadRequest(s, user, token).ConfirmFailed?
    ensures ExecConfirm(s, cid, user, token) == s.(confirms := s.confirms[cid := ReadRequest(s, user, token)])
  {
    var s' := ReadHoldStep(s, cid, user, token);
    assert s'.confirms[cid].ConfirmFailed?;
    assert InsertStep(s', cid) == s' && DeleteHoldStep(s', cid) == s' && DeleteLockStep(s', cid) == s';
  }

  lemma InsertRefused(s: State, cid: nat, t: Token)
    requires cid !in s.confirms && HoldLive(s, t) && !InsertAllowed(s.rows, RowFor(cid, s.holds[t]))
    ensures ExecConfirm(s, cid, s.holds[t].user, Some(t)) == s.(confirms := s.confirms[cid := ConfirmFailed(SlotTaken)])
  {
    var h := s.holds[t];
    var s' := ReadHoldStep(s, cid, h.user, Some(t));
    assert s'.confirms[cid] == HoldRead(t, h, s.now);
    InsertOf(s', cid, t, h, s.now);
    var s'' := InsertStep(s', cid);
    assert s''.confirms == s.confirms[cid := ConfirmFailed(SlotTaken)];
    assert DeleteHoldStep(s'', cid) == s'' && DeleteLockStep(s'', cid) == s'';
  }

  /** An undisturbed confirm. For the owner of a live hold that shares no instant with a row of its room, it
      adds the row of that hold, deletes the hold and the lock of its slot, and changes nothing else; else
      it changes no store, and each error has its exact cause. */
  lemma ConfirmOutcome(s: State, cid: nat, user: Uuid, token: Option<Token>)
    requires cid !in s.confirms
    ensures var s' := ExecConfirm(s, cid, user, token);
            if token.None? then s' == s.(confirms := s.confirms[cid := ConfirmFailed(BadParams)])
            else if !(token.value in s.holds && s.now < s.holds[token.value].expiry)
            then s' == s.(confirms := s.confirms[cid := ConfirmFailed(HoldExpired)])
            else
              var h := s.holds[token.value];
              if h.user != user then s' == s.(confirms := s.confirms[cid := ConfirmFailed(Forbidden)])
              else if !InsertAllowed(s.rows, Row(cid, h.room.id, user, h.start, h.end))
              then s' == s.(confirms := s.confirms[cid := ConfirmFailed(SlotTaken)])
              else s' == s.(rows := s.rows + [Row(cid, h.room.id, user, h.start, h.end)],
                            holds := s.holds - {token.value}, locks := s.locks - {LockKey(h.room, h.start)},
                            confirms := s.confirms[cid := Confirmed(token.value, h)])
  {
    ReadCauses(s, user, token);
    if ReadRequest(s, user, token).ConfirmFailed? {
      ReadRefused(s, cid, user, token);
    } else if InsertAllowed(s.rows, RowFor(cid, s.holds[token.value])) {
      ConfirmLeaves(s, cid, token.value);
    } else {
      InsertRefused(s, cid, token.value);
    }
  }

  lemma PutAndTake<K, V>(m: map<K, V>, k: K, v: V)
    ensures m[k := v] - {k} == m - {k}
  {
  }

  lemma ConfirmAfterHold(s: State, later: State, cid: nat, l: Lock, h: Hold)
    requires cid !in s.confirms && later.now < h.expiry && InsertAllowed(s.rows, RowFor(cid, h))
    requires later == s.(now := later.now, locks := s.locks[LockOf(h) := l], holds := s.holds[TokenOf(h) := h],
                         creates := later.creates)
    ensures var done := ExecConfirm(later, cid, h.user, Some(TokenOf(h)));
            && done.rows == s.rows + [RowFor(cid, h)] && done.rooms == s.rooms
            && done.locks == s.locks - {LockOf(h)} && done.holds == s.holds - {TokenOf(h)}
  {
    assert later.holds[TokenOf(h)] == h;
    ConfirmLeaves(later, cid, TokenOf(h));
    PutAndTake(s.locks, LockOf(h), l);
    PutAndTake(s.holds, TokenOf(h), h);
  }

  /** Lock, hold, confirm: an undisturbed create and a confirm before the expiry add exactly one row,
      for the slot asked for, and leave neither lock nor hold. */
  lemma CreateThenConfirm(ttl: int, s: State, rid: nat, cid: nat, c: Claim, wait: nat)
    requires rid !in s.creates && cid !in s.confirms && wait < ttl
    requires Asks(s, c) && !LockLive(s, KeyOf(c))
    requires InsertAllowed(s.rows, RowFor(cid, HoldFor(c, s.now + ttl, rid)))
    ensures var h := HoldFor(c, s.now + ttl, rid);
            var held := ExecCreate(ttl, s, rid, c.user, c.room, Some(c.start));
            var done := ExecConfirm(held.(now := s.now + wait), cid, c.user, Some(TokenOf(h)));
            && done.rows == s.rows + [Row(cid, c.room.id, c.user, c.start, SlotEnd(c.start, c.slotMin))]
            && done.locks == s.locks - {KeyOf(c)} && done.holds == s.holds - {TokenOf(h)} && done.rooms == s.rooms
  {
    var h := HoldFor(c, s.now + ttl, rid);
    CreateLeaves(ttl, s, rid, c);
    var later := ExecCreate(ttl, s, rid, c.user, c.room, Some(c.start)).(now := s.now + wait);
    ConfirmAfterHold(s, later, cid, Lock(rid, s.now + ttl), h);
  }

  /** Had the early insert gone through, with the slot's own interval, the confirm of the same request
      could not have booked it. */
  lemma EarlyRowWouldBlockConfirm(rows: seq<Row>, rid: nat, cid: nat, h: Hold)
    requires h.start < h.end && InsertAllowed(rows, RowFor(rid, h))
    ensures !InsertAllowed(rows + [RowFor(rid, h)], RowFor(cid, h))
  {
    assert Conflict((rows + [RowFor(rid, h)])[|rows|], RowFor(cid, h));
  }
}
