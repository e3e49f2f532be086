/** Whole executions: what each record in the state says about the steps that led to it. */
module RunHistory {
  import opened Slots
  import opened Text
  import opened Ids
  import opened Protocol
  import opened ProtocolInvariant

  // ----- What one step does to a record -----

  /** A step of a confirm run. */
  predicate OfConfirm(a: Action) { a.ReadHold? || a.Insert? || a.DeleteHold? || a.DeleteLock? }

  lemma AcquireKeepsConfirms(ttl: int, s: State, rid: nat)
    ensures AcquireStep(ttl, s, rid).confirms == s.confirms && AcquireStep(ttl, s, rid).rows == s.rows
  {
  }

  lemma WriteHoldKeepsConfirms(ttl: int, s: State, rid: nat)
    ensures WriteHoldStep(ttl, s, rid).confirms == s.confirms && WriteHoldStep(ttl, s, rid).rows == s.rows
  {
    if rid in s.creates && s.creates[rid].Locked? {
      WriteHoldOf(ttl, s, rid, s.creates[rid].claim, s.creates[rid].at);
    }
  }

  lemma OtherStepsKeepConfirms(ttl: int, s: State, a: Action)
    requires !OfConfirm(a)
    ensures Step(ttl, s, a).confirms == s.confirms && Step(ttl, s, a).rows == s.rows
  {
    match a
    case Tick(_) =>
    case UpdateRoom(_, _, _) =>
    case Validate(_, _, _, _) =>
    case Acquire(rid) => AcquireKeepsConfirms(ttl, s, rid);
    case WriteHold(rid) => WriteHoldKeepsConfirms(ttl, s, rid);
  }

  lemma InsertKeepsCreates(s: State, cid: nat)
    ensures var s' := InsertStep(s, cid); s'.creates == s.creates && s'.rooms == s.rooms && s'.now == s.now
  {
    if cid in s.confirms && s.confirms[cid].HoldRead? {
      var HoldRead(t, h, at) := s.confirms[cid];
      InsertOf(s, cid, t, h, at);
    }
  }

  lemma ConfirmStepsKeepCreates(ttl: int, s: State, a: Action)
    requires OfConfirm(a)
    ensures Step(ttl, s, a).creates == s.creates && Step(ttl, s, a).rooms == s.rooms && Step(ttl, s, a).now == s.now
  {
    match a
    case ReadHold(_, _, _) =>
    case Insert(cid) => InsertKeepsCreates(s, cid);
    case DeleteHold(_) =>
    case DeleteLock(_) =>
  }

  /** What one step from `s` does to a create run that is then `r`: nothing, or that run's own next step. */
  predicate CreateMoves(ttl: int, s: State, a: Action, rid: nat, r: CreateRun) {
    || (rid in s.creates && r == s.creates[rid])
    || (a.Validate? && a.rid == rid && rid !in s.creates
        && r == ValidateRequest(s.now, s.rooms, a.user, a.room, a.start))
    || (a == Acquire(rid) && rid in s.creates && s.creates[rid].Validated?
        && r == if LockLive(s, KeyOf(s.creates[rid].claim)) then CreateFailed(SlotTaken)
           else Locked(s.creates[rid].claim, s.now))
    || (a == WriteHold(rid) && rid in s.creates && s.creates[rid].Locked?
        && r == Held(s.creates[rid].claim, s.creates[rid].at, s.now))
  }

  lemma StepOnCreate(ttl: int, s: State, a: Action, rid: nat)
    requires rid in Step(ttl, s, a).creates
    ensures CreateMoves(ttl, s, a, rid, Step(ttl, s, a).creates[rid])
  {
    match a
    case Tick(_) =>
    case UpdateRoom(_, _, _) =>
    case Validate(_, _, _, _) =>
    case Acquire(_) =>
    case WriteHold(_) =>
    case ReadHold(_, _, _) => ConfirmStepsKeepCreates(ttl, s, a);
    case Insert(_) => ConfirmStepsKeepCreates(ttl, s, a);
    case DeleteHold(_) => ConfirmStepsKeepCreates(ttl, s, a);
    case DeleteLock(_) => ConfirmStepsKeepCreates(ttl, s, a);
  }

  lemma ReadStepOn(s: State, c: nat, user: Uuid, token: Option<Token>, cid: nat)
    requires cid in ReadHoldStep(s, c, user, token).confirms
    ensures (c == cid && cid !in s.confirms)
         || (cid in s.confirms && ReadHoldStep(s, c, user, token).confirms[cid] == s.confirms[cid])
  {
  }

  lemma InsertStepOn(s: State, c: nat, cid: nat)
    requires cid in InsertStep(s, c).confirms
    ensures cid in s.confirms
    ensures (c == cid && s.confirms[cid].HoldRead?) || InsertStep(s, c).confirms[cid] == s.confirms[cid]
  {
  }

  lemma DeleteHoldStepOn(s: State, c: nat, cid: nat)
    requires cid in DeleteHoldStep(s, c).confirms
    ensures cid in s.confirms
    ensures var r := DeleteHoldStep(s, c).confirms[cid];
            || r == s.confirms[cid]
            || (c == cid && s.confirms[cid].Inserted? && r == HoldDeleted(s.confirms[cid].token, s.confirms[cid].hold))
  {
  }

  lemma DeleteLockStepOn(s: State, c: nat, cid: nat)
    requires cid in DeleteLockStep(s, c).confirms
    ensures cid in s.confirms
    ensures var r := DeleteLockStep(s, c).confirms[cid];
            || r == s.confirms[cid]
            || (c == cid && s.confirms[cid].HoldDeleted? && r == Confirmed(s.confirms[cid].token, s.confirms[cid].hold))
  {
  }

  /** What one step from `s` to `s'` does to a confirm run: nothing, or that run's own next step. */
  ghost predicate ConfirmMoves(s: State, a: Action, s': State, cid: nat)
    requires cid in s'.confirms
  {
    var r := s'.confirms[cid];
    || (cid in s.confirms && r == s.confirms[cid])
    || (a.ReadHold? && a.cid == cid && cid !in s.confirms && s' == ReadHoldStep(s, cid, a.user, a.token))
    || (a == Insert(cid) && cid in s.confirms && s.confirms[cid].HoldRead? && s' == InsertStep(s, cid))
    || (a == DeleteHold(cid) && cid in s.confirms && s.confirms[cid].Inserted?
        && r == HoldDeleted(s.confirms[cid].token, s.confirms[cid].hold))
    || (a == DeleteLock(cid) && cid in s.confirms && s.confirms[cid].HoldDeleted?
        && r == Confirmed(s.confirms[cid].token, s.confirms[cid].hold))
  }

  lemma StepOnConfirm(ttl: int, s: State, a: Action, cid: nat)
    requires cid in Step(ttl, s, a).confirms
    ensures ConfirmMoves(s, a, Step(ttl, s, a), cid)
  {
    match a
    case Tick(_) => OtherStepsKeepConfirms(ttl, s, a);
    case UpdateRoom(_, _, _) => OtherStepsKeepConfirms(ttl, s, a);
    case Validate(_, _, _, _) => OtherStepsKeepConfirms(ttl, s, a);
    case Acquire(_) => OtherStepsKeepConfirms(ttl, s, a);
    case WriteHold(_) => OtherStepsKeepConfirms(ttl, s, a);
    case ReadHold(c, user, token) => ReadStepOn(s, c, user, token, cid);
    case Insert(c) => InsertStepOn(s, c, cid);
    case DeleteHold(c) => DeleteHoldStepOn(s, c, cid);
    case DeleteLock(c) => DeleteLockStepOn(s, c, cid);
  }

  // ----- Records last -----

  lemma StepKeepsCreate(ttl: int, s: State, a: Action, rid: nat)
    requires rid in s.creates
    ensures rid in Step(ttl, s, a).creates
    ensures HasLock(s.creates[rid]) ==> SameLock(s.creates[rid], Step(ttl, s, a).creates[rid])
  {
    match a
    case Tick(_) =>
    case UpdateRoom(_, _, _) =>
    case Validate(_, _, _, _) =>
    case Acquire(_) =>
    case WriteHold(_) =>
    case ReadHold(_, _, _) => ConfirmStepsKeepCreates(ttl, s, a);
    case Insert(_) => ConfirmStepsKeepCreates(ttl, s, a);
    case DeleteHold(_) => ConfirmStepsKeepCreates(ttl, s, a);
    case DeleteLock(_) => ConfirmStepsKeepCreates(ttl, s, a);
  }

  lemma ReadKeepsConfirm(s: State, c: nat, user: Uuid, token: Option<Token>, cid: nat)
    requires cid in s.confirms
    ensures cid in ReadHoldStep(s, c, user, token).confirms
            && ReadHoldStep(s, c, user, token).confirms[cid] == s.confirms[cid]
  {
  }

  lemma InsertKeepsConfirm(s: State, c: nat, cid: nat)
    requires cid in s.confirms && HasRow(s.confirms[cid])
    ensures cid in InsertStep(s, c).confirms && InsertStep(s, c).confirms[cid] == s.confirms[cid]
  {
    if c in s.confirms && s.confirms[c].HoldRead? {
      var HoldRead(t, h, at) := s.confirms[c];
      InsertOf(s, c, t, h, at);
    }
  }

  lemma DeleteHoldKeepsConfirm(s: State, c: nat, cid: nat)
    requires cid in s.confirms && HasRow(s.confirms[cid])
    ensures cid in DeleteHoldStep(s, c).confirms && SameRow(s.confirms[cid], DeleteHoldStep(s, c).confirms[cid])
  {
    if c in s.confirms && s.confirms[c].Inserted? {
      var Inserted(t, h) := s.confirms[c];
      assert DeleteHoldStep(s, c).confirms == s.confirms[c := HoldDeleted(t, h)];
    }
  }

  lemma DeleteLockKeepsConfirm(s: State, c: nat, cid: nat)
    requires cid in s.confirms && HasRow(s.confirms[cid])
    ensures cid in DeleteLockStep(s, c).confirms && SameRow(s.confirms[cid], DeleteLockStep(s, c).confirms[cid])
  {
    if c in s.confirms && s.confirms[c].HoldDeleted? {
      var HoldDeleted(t, h) := s.confirms[c];
      assert DeleteLockStep(s, c).confirms == s.confirms[c := Confirmed(t, h)];
    }
  }

  lemma StepKeepsConfirm(ttl: int, s: State, a: Action, cid: nat)
    requires cid in s.confirms && HasRow(s.confirms[cid])
    ensures cid in Step(ttl, s, a).confirms && SameRow(s.confirms[cid], Step(ttl, s, a).confirms[cid])
  {
    match a
    case Tick(_) => OtherStepsKeepConfirms(ttl, s, a);
    case UpdateRoom(_, _, _) => OtherStepsKeepConfirms(ttl, s, a);
    case Validate(_, _, _, _) => OtherStepsKeepConfirms(ttl, s, a);
    case Acquire(_) => OtherStepsKeepConfirms(ttl, s, a);
    case WriteHold(_) => OtherStepsKeepConfirms(ttl, s, a);
    case ReadHold(c, user, token) => ReadKeepsConfirm(s, c, user, token, cid);
    case Insert(c) => InsertKeepsConfirm(s, c, cid);
    case DeleteHold(c) => DeleteHoldKeepsConfirm(s, c, cid);
    case DeleteLock(c) => DeleteLockKeepsConfirm(s, c, cid);
  }

  lemma InsertRows(s: State, cid: nat)
    ensures InsertStep(s, cid).rows == s.rows
         || (cid in s.confirms && s.confirms[cid].HoldRead? && InsertAllowed(s.rows, RowFor(cid, s.confirms[cid].hold))
             && InsertStep(s, cid).rows == s.rows + [RowFor(cid, s.confirms[cid].hold)])
  {
    if cid in s.confirms && s.confirms[cid].HoldRead? {
      InsertOf(s, cid, s.confirms[cid].token, s.confirms[cid].hold, s.confirms[cid].at);
    }
  }

  lemma DeletesKeepRows(s: State, cid: nat)
    ensures DeleteHoldStep(s, cid).rows == s.rows && DeleteLockStep(s, cid).rows == s.rows
  {
  }

  lemma OnlyInsertAddsRows(ttl: int, s: State, a: Action)
    requires !a.Insert?
    ensures Step(ttl, s, a).rows == s.rows
  {
    match a
    case Tick(_) =>
    case UpdateRoom(_, _, _) =>
    case Validate(_, _, _, _) =>
    case Acquire(_) =>
    case WriteHold(_) =>
    case ReadHold(_, _, _) =>
    case DeleteHold(cid) => DeletesKeepRows(s, cid);
    case DeleteLock(cid) => DeletesKeepRows(s, cid);
  }

  /** A step adds no row, or that of the hold its confirm read. */
  lemma RowsStep(ttl: int, s: State, a: Action)
    ensures Step(ttl, s, a).rows == s.rows
         || (a.Insert? && a.cid in s.confirms && s.confirms[a.cid].HoldRead?
             && InsertAllowed(s.rows, RowFor(a.cid, s.confirms[a.cid].hold))
             && Step(ttl, s, a).rows == s.rows + [RowFor(a.cid, s.confirms[a.cid].hold)])
  {
    if a.Insert? {
      InsertRows(s, a.cid);
    } else {
      OnlyInsertAddsRows(ttl, s, a);
    }
  }

  lemma TimeStep(ttl: int, s: State, a: Action)
    ensures s.now <= Step(ttl, s, a).now
  {
    match a
    case Tick(_) =>
    case UpdateRoom(_, _, _) =>
    case Validate(_, _, _, _) =>
    case Acquire(_) =>
    case WriteHold(_) =>
    case ReadHold(_, _, _) => ConfirmStepsKeepCreates(ttl, s, a);
    case Insert(_) => ConfirmStepsKeepCreates(ttl, s, a);
    case DeleteHold(_) => ConfirmStepsKeepCreates(ttl, s, a);
    case DeleteLock(_) => ConfirmStepsKeepCreates(ttl, s, a);
  }

  /** Time and the table only grow. */
  lemma {:induction false} RowsGrow(ttl: int, st: seq<State>, acts: seq<Action>, i: nat, j: nat)
    requires IsRun(ttl, st, acts) && i <= j < |st|
    ensures st[i].now <= st[j].now && st[i].rows <= st[j].rows
    decreases j - i
  {
    if i < j {
      var p := j - 1;
      RowsGrow(ttl, st, acts, i, p);
      TimeStep(ttl, st[p], acts[p]);
      RowsStep(ttl, st[p], acts[p]);
    }
  }

  /** No acquisition or hold is ever unmade. */
  lemma {:induction false} AcquisitionLasts(ttl: int, st: seq<State>, acts: seq<Action>, i: nat, j: nat, rid: nat)
    requires IsRun(ttl, st, acts) && i <= j < |st| && rid in st[i].creates && HasLock(st[i].creates[rid])
    ensures rid in st[j].creates && SameLock(st[i].creates[rid], st[j].creates[rid])
    decreases j - i
  {
    if i < j {
      var p := j - 1;
      AcquisitionLasts(ttl, st, acts, i, p, rid);
      StepKeepsCreate(ttl, st[p], acts[p], rid);
    }
  }

  /** Nor is a row, or the record of the confirm that inserted it. */
  lemma {:induction false} BookingLasts(ttl: int, st: seq<State>, acts: seq<Action>, i: nat, j: nat, cid: nat)
    requires IsRun(ttl, st, acts) && i <= j < |st| && cid in st[i].confirms && HasRow(st[i].confirms[cid])
    ensures cid in st[j].confirms && SameRow(st[i].confirms[cid], st[j].confirms[cid])
    decreases j - i
  {
    if i < j {
      var p := j - 1;
      BookingLasts(ttl, st, acts, i, p, cid);
      StepKeepsConfirm(ttl, st[p], acts[p], cid);
    }
  }

  // ----- Records come from steps -----

  /** Step `v` validated this claim: the slot length is the room's at that moment. */
  ghost predicate ValidatedAt(st: seq<State>, acts: seq<Action>, v: nat, rid: nat, c: Claim)
    requires |st| == |acts| + 1
  {
    && v < |acts| && acts[v] == Validate(rid, c.user, c.room, Some(c.start))
    && c.room.id in st[v].rooms && st[v].rooms[c.room.id].slotMin == c.slotMin > 0
    && Aligned(c.start, c.slotMin) && c.start >= st[v].now - 1000
  }

  /** Step `a` took the lock, which no live entry held. */
  ghost predicate AcquiredAt(st: seq<State>, acts: seq<Action>, a: nat, rid: nat, c: Claim, at: int)
    requires |st| == |acts| + 1
  {
    && a < |acts| && acts[a] == Acquire(rid) && st[a].now == at && !LockLive(st[a], KeyOf(c))
    && rid in st[a].creates && st[a].creates[rid] == Validated(c)
  }

  /** Step `w` wrote the hold, for the lock taken at `at`. */
  ghost predicate HeldAtStep(ttl: int, st: seq<State>, acts: seq<Action>, w: nat, rid: nat, c: Claim, at: int, h: Hold)
    requires |st| == |acts| + 1
  {
    && w < |acts| && acts[w] == WriteHold(rid) && h == HoldFor(c, st[w].now + ttl, rid)
    && rid in st[w].creates && st[w].creates[rid] == Locked(c, at)
    && TokenOf(h) in st[w + 1].holds && st[w + 1].holds[TokenOf(h)] == h
  }

  lemma {:induction false} ClaimHistory(ttl: int, st: seq<State>, acts: seq<Action>, n: nat, rid: nat) returns (v: nat)
    requires IsRun(ttl, st, acts) && n < |st|
    requires rid in st[n].creates && HasClaim(st[n].creates[rid])
    ensures v < n && ValidatedAt(st, acts, v, rid, st[n].creates[rid].claim)
    decreases n
  {
    var p := n - 1;
    var s := st[p];
    StepOnCreate(ttl, s, acts[p], rid);
    if rid in s.creates {
      v := ClaimHistory(ttl, st, acts, p, rid);
    } else {
      v := p;
    }
  }

  lemma {:induction false} LockHistory(ttl: int, st: seq<State>, acts: seq<Action>, n: nat, rid: nat)
    returns (v: nat, a: nat)
    requires IsRun(ttl, st, acts) && n < |st|
    requires rid in st[n].creates && HasLock(st[n].creates[rid])
    ensures v < a < n && ValidatedAt(st, acts, v, rid, st[n].creates[rid].claim)
    ensures AcquiredAt(st, acts, a, rid, st[n].creates[rid].claim, st[n].creates[rid].at)
    decreases n
  {
    var p := n - 1;
    var s := st[p];
    StepOnCreate(ttl, s, acts[p], rid);
    if HasLock(s.creates[rid]) {
      v, a := LockHistory(ttl, st, acts, p, rid);
    } else {
      v := ClaimHistory(ttl, st, acts, p, rid);
      a := p;
    }
  }

  lemma FreshHold(ttl: int, s: State, rid: nat)
    requires rid in s.creates && s.creates[rid].Locked?
    ensures var Locked(c, at) := s.creates[rid];
            var h := HoldFor(c, s.now + ttl, rid);
            var s' := WriteHoldStep(ttl, s, rid);
            && rid in s'.creates && s'.creates[rid] == Held(c, at, s.now)
            && TokenOf(h) in s'.holds && s'.holds[TokenOf(h)] == h
  {
  }

  lemma {:induction false} HoldHistory(ttl: int, st: seq<State>, acts: seq<Action>, n: nat, rid: nat) returns (w: nat)
    requires IsRun(ttl, st, acts) && n < |st|
    requires rid in st[n].creates && st[n].creates[rid].Held?
    ensures var Held(c, at, heldAt) := st[n].creates[rid];
            w < n && HeldAtStep(ttl, st, acts, w, rid, c, at, HoldFor(c, heldAt + ttl, rid))
    decreases n
  {
    var p := n - 1;
    var s := st[p];
    StepOnCreate(ttl, s, acts[p], rid);
    if s.creates[rid].Held? {
      w := HoldHistory(ttl, st, acts, p, rid);
    } else {
      w := p;
      FreshHold(ttl, s, rid);
    }
  }

  /** Step `r` read this hold, live, for its own user. */
  ghost predicate ReadAt(st: seq<State>, acts: seq<Action>, r: nat, cid: nat, h: Hold)
    requires |st| == |acts| + 1
  {
    && r < |acts| && acts[r] == ReadHold(cid, h.user, Some(TokenOf(h)))
    && HoldLive(st[r], TokenOf(h)) && st[r].holds[TokenOf(h)] == h
  }

  /** Step `x` inserted this row, which met no other. */
  ghost predicate InsertedAt(st: seq<State>, acts: seq<Action>, x: nat, row: Row)
    requires |st| == |acts| + 1
  {
    && x < |acts| && acts[x] == Insert(row.id)
    && InsertAllowed(st[x].rows, row) && st[x + 1].rows == st[x].rows + [row]
  }

  lemma FreshRead(ttl: int, s: State, cid: nat, user: Uuid, token: Option<Token>)
    requires HoldsOk(ttl, s.creates, s.holds) && cid !in s.confirms
             && HasHold(ReadHoldStep(s, cid, user, token).confirms[cid])
    ensures var r := ReadHoldStep(s, cid, user, token).confirms[cid];
            && r.HoldRead? && r.at == s.now && r.hold.user == user && Some(TokenOf(r.hold)) == token
            && HoldLive(s, TokenOf(r.hold)) && s.holds[TokenOf(r.hold)] == r.hold
  {
  }

  lemma {:induction false} ReadHistory(ttl: int, st: seq<State>, acts: seq<Action>, n: nat, cid: nat) returns (r: nat)
    requires IsRun(ttl, st, acts) && n < |st|
    requires cid in st[n].confirms && HasHold(st[n].confirms[cid])
    ensures r < n && ReadAt(st, acts, r, cid, st[n].confirms[cid].hold)
    ensures st[n].confirms[cid].HoldRead? ==> st[n].confirms[cid].at == st[r].now
    decreases n
  {
    var p := n - 1;
    var s := st[p];
    StepOnConfirm(ttl, s, acts[p], cid);
    if cid in s.confirms {
      r := ReadHistory(ttl, st, acts, p, cid);
    } else {
      r := p;
      InvHolds(ttl, st, acts, r);
      FreshRead(ttl, s, cid, acts[r].user, acts[r].token);
    }
  }

  lemma {:induction false} InsertHistory(ttl: int, st: seq<State>, acts: seq<Action>, n: nat, cid: nat)
    returns (r: nat, x: nat)
    requires IsRun(ttl, st, acts) && n < |st|
    requires cid in st[n].confirms && HasRow(st[n].confirms[cid])
    ensures r < x < n && ReadAt(st, acts, r, cid, st[n].confirms[cid].hold)
    ensures InsertedAt(st, acts, x, RowFor(cid, st[n].confirms[cid].hold))
    decreases n
  {
    var p := n - 1;
    var s := st[p];
    StepOnConfirm(ttl, s, acts[p], cid);
    if HasRow(s.confirms[cid]) {
      r, x := InsertHistory(ttl, st, acts, p, cid);
    } else {
      r := ReadHistory(ttl, st, acts, p, cid);
      x := p;
      assert st[x + 1].rows == InsertStep(s, cid).rows;
    }
  }

  // ----- Main results -----

  /** Every row of every state of every execution goes back, step by step, to a request: validated
      against the slot length then in force, locked, held, read live by the same user, inserted. Its
      interval is that slot, whatever happened to the room's slot length since. */
  lemma Provenance(ttl: int, st: seq<State>, acts: seq<Action>, n: nat, i: nat)
    returns (rid: nat, c: Claim, h: Hold, v: nat, a: nat, w: nat, r: nat, x: nat)
    requires IsRun(ttl, st, acts) && n < |st| && i < |st[n].rows|
    ensures v < a < w < r < x < n
    ensures ValidatedAt(st, acts, v, rid, c) && AcquiredAt(st, acts, a, rid, c, st[a].now)
    ensures HeldAtStep(ttl, st, acts, w, rid, c, st[a].now, h)
    ensures ReadAt(st, acts, r, st[n].rows[i].id, h) && InsertedAt(st, acts, x, st[n].rows[i])
    ensures st[n].rows[i] == Row(st[n].rows[i].id, c.room.id, c.user, c.start, c.start + c.slotMin * 60_000)
  {
    InvHolds(ttl, st, acts, n);
    var row := st[n].rows[i];
    h := st[n].confirms[row.id].hold;
    r, x := InsertHistory(ttl, st, acts, n, row.id);
    InvHolds(ttl, st, acts, r);
    rid := h.origin;
    assert HoldOk(ttl, st[r].creates, h);
    c := st[r].creates[rid].claim;
    w := HoldHistory(ttl, st, acts, r, rid);
    v, a := LockHistory(ttl, st, acts, w, rid);
  }

  /** Step `x` books the slot. */
  ghost predicate BooksAt(st: seq<State>, acts: seq<Action>, x: nat, slot: Slot)
    requires |st| == |acts| + 1
  {
    exists row: Row :: InsertedAt(st, acts, x, row) && row.room == slot.room && row.start == slot.start
  }

  /** However many confirms share a token or a slot, one of them at most books it. */
  lemma BookedOnce(ttl: int, st: seq<State>, acts: seq<Action>, x: nat, y: nat, slot: Slot)
    requires IsRun(ttl, st, acts) && BooksAt(st, acts, x, slot) && BooksAt(st, acts, y, slot)
    ensures x == y
  {
    if x < y {
      NotBookedAgain(ttl, st, acts, x, y, slot);
    } else if y < x {
      NotBookedAgain(ttl, st, acts, y, x, slot);
    }
  }

  lemma LaterRowIsElsewhere(rows: seq<Row>, i: nat, r: Row)
    requires i < |rows| && RowsDisjoint(rows + [r])
    ensures !(r.room == rows[i].room && r.start == rows[i].start)
  {
    var all := rows + [r];
    assert all[i] == rows[i] && all[|rows|] == r;
  }

  lemma NotBookedAgain(ttl: int, st: seq<State>, acts: seq<Action>, x: nat, y: nat, slot: Slot)
    requires IsRun(ttl, st, acts) && x < y && BooksAt(st, acts, x, slot)
    ensures !BooksAt(st, acts, y, slot)
  {
    var row: Row :| InsertedAt(st, acts, x, row) && row.room == slot.room && row.start == slot.start;
    assert st[x + 1].rows[|st[x].rows|] == row;
    forall row' | InsertedAt(st, acts, y, row') ensures !(row'.room == slot.room && row'.start == slot.start) {
      InvHolds(ttl, st, acts, y + 1);
      RowsGrow(ttl, st, acts, x + 1, y);
      LaterRowIsElsewhere(st[y].rows, |st[x].rows|, row');
    }
  }

  /** Step `x` deletes the lock of `k`, without looking at its value. */
  ghost predicate DeletesLockAt(st: seq<State>, acts: seq<Action>, x: nat, k: LockKey)
    requires |st| == |acts| + 1
  {
    && x < |acts| && acts[x].DeleteLock? && acts[x].cid in st[x].confirms
    && st[x].confirms[acts[x].cid].HoldDeleted?
    && LockOf(st[x].confirms[acts[x].cid].hold) == k
  }

  /** The unchecked deletion comes only after the slot is booked, by the confirm that booked it. */
  lemma LockDeletedAfterBooking(ttl: int, st: seq<State>, acts: seq<Action>, x: nat, k: LockKey) returns (z: nat)
    requires IsRun(ttl, st, acts) && DeletesLockAt(st, acts, x, k)
    ensures z < x && acts[z] == Insert(acts[x].cid) && BooksAt(st, acts, z, SlotOf(k))
    ensures !Free(st[x].rows, SlotOf(k))
  {
    var cid := acts[x].cid;
    var r;
    r, z := InsertHistory(ttl, st, acts, x, cid);
    var row := RowFor(cid, st[x].confirms[cid].hold);
    assert InsertedAt(st, acts, z, row) && row.room == k.room.id && row.start == k.start;
    InvHolds(ttl, st, acts, x);
    assert row in st[x].rows;
  }

  /** No lock key is deleted twice by confirms. */
  lemma LockDeletedOnce(ttl: int, st: seq<State>, acts: seq<Action>, x: nat, y: nat, k: LockKey)
    requires IsRun(ttl, st, acts) && DeletesLockAt(st, acts, x, k) && DeletesLockAt(st, acts, y, k)
    ensures x == y
  {
    if x < y {
      NotDeletedAgain(ttl, st, acts, x, y, k);
    } else if y < x {
      NotDeletedAgain(ttl, st, acts, y, x, k);
    }
  }

  lemma NotDeletedAgain(ttl: int, st: seq<State>, acts: seq<Action>, x: nat, y: nat, k: LockKey)
    requires IsRun(ttl, st, acts) && x < y && DeletesLockAt(st, acts, x, k)
    ensures !DeletesLockAt(st, acts, y, k)
  {
    if DeletesLockAt(st, acts, y, k) {
      var z := LockDeletedAfterBooking(ttl, st, acts, x, k);
      var z' := LockDeletedAfterBooking(ttl, st, acts, y, k);
      BookedOnce(ttl, st, acts, z, z', SlotOf(k));
      var cid := acts[x].cid;
      assert st[x + 1] == Step(ttl, st[x], acts[x]);
      assert st[x + 1].confirms[cid].Confirmed?;
      BookingLasts(ttl, st, acts, x + 1, y, cid);
      assert false;
    }
  }

  /** Rows stay disjoint in every state, across room updates and whatever the slot lengths. */
  lemma NoDoubleBooking(ttl: int, st: seq<State>, acts: seq<Action>, n: nat, i: nat, j: nat)
    requires IsRun(ttl, st, acts) && n < |st| && i < |st[n].rows| && j < |st[n].rows| && i != j
    requires st[n].rows[i].room == st[n].rows[j].room
    ensures st[n].rows[i].start < st[n].rows[i].end
    ensures Disjoint(st[n].rows[i].start, st[n].rows[i].end, st[n].rows[j].start, st[n].rows[j].end)
  {
    InvHolds(ttl, st, acts, n);
  }
}
