/** The lock adapter by itself: acquire, and the release that gets before it deletes, by any number of
    callers in any order, beside the plain deletions of confirm. */
module LockRelease {
  import opened Protocol

  /** A release after its get: it goes on to delete if the value it read was its caller's own. */
  datatype Release = Release(key: LockKey, val: nat, own: bool)

  /** The store, the values drawn so far and the releases under way. */
  datatype Adapter = Adapter(now: int, locks: map<LockKey, Lock>, used: set<nat>, releases: map<nat, Release>)

  datatype Call =
    | Wait(ms: nat)
    | Take(key: LockKey, val: nat)
    | Get(rid: nat, key: LockKey, val: nat)
    | Del(rid: nat)
    | Remove(key: LockKey)

  predicate Live(s: Adapter, key: LockKey) { key in s.locks && s.now < s.locks[key].expiry }

  predicate Holds(s: Adapter, key: LockKey, val: nat) { Live(s, key) && s.locks[key].val == val }

  /** A value is a random uuid: none is drawn twice. */
  function TakeStep(ttl: int, s: Adapter, key: LockKey, val: nat): Adapter {
    if val in s.used then s
    else if Live(s, key) then s.(used := s.used + {val})
    else s.(locks := s.locks[key := Lock(val, s.now + ttl)], used := s.used + {val})
  }

  /** The key is taken exactly if it is absent or has expired; a value is used up either way. */
  lemma TakeMeans(ttl: int, s: Adapter, key: LockKey, val: nat)
    requires val !in s.used
    ensures var taken := key !in s.locks || s.locks[key].expiry <= s.now;
            TakeStep(ttl, s, key, val)
            == Adapter(s.now, if taken then s.locks[key := Lock(val, s.now + ttl)] else s.locks,
                       s.used + {val}, s.releases)
  {
  }

  /** The del of a release whose get matched; it happens once. */
  predicate Deleting(s: Adapter, rid: nat) { rid in s.releases && s.releases[rid].own }

  function DelStep(s: Adapter, rid: nat): Adapter {
    if Deleting(s, rid) then
      s.(locks := s.locks - {s.releases[rid].key}, releases := s.releases[rid := s.releases[rid].(own := false)])
    else s
  }

  function Apply(ttl: int, s: Adapter, c: Call): Adapter {
    match c
    case Wait(ms) => s.(now := s.now + ms)
    case Take(key, val) => TakeStep(ttl, s, key, val)
    case Get(rid, key, val) =>
      if rid in s.releases then s else s.(releases := s.releases[rid := Release(key, val, Holds(s, key, val))])
    case Del(rid) => DelStep(s, rid)
    case Remove(key) => s.(locks := s.locks - {key})
  }

  ghost predicate IsTrace(ttl: int, st: seq<Adapter>, calls: seq<Call>) {
    && ttl > 0 && |st| == |calls| + 1 && st[0].locks == map[] && st[0].releases == map[]
    && forall i :: 0 <= i < |calls| ==> st[i + 1] == Apply(ttl, st[i], calls[i])
  }

  /** A call that removes the key: a confirm's, or the del of a release. */
  predicate Removes(s: Adapter, c: Call, key: LockKey) {
    match c
    case Remove(k) => k == key
    case Del(rid) => Deleting(s, rid) && s.releases[rid].key == key
    case _ => false
  }

  ghost predicate RemovedBetween(st: seq<Adapter>, calls: seq<Call>, i: nat, j: nat, key: LockKey)
    requires |st| == |calls| + 1 && j <= |calls|
  {
    exists x :: i <= x < j && Removes(st[x], calls[x], key)
  }

  /** Call `i` is the get and call `j` the del of one release, by the holder of the lock. */
  ghost predicate ReleasedAt(st: seq<Adapter>, calls: seq<Call>, i: nat, j: nat, rid: nat, key: LockKey, val: nat)
    requires |st| == |calls| + 1
  {
    && i < j < |calls| && calls[i] == Get(rid, key, val) && rid !in st[i].releases && Holds(st[i], key, val)
    && calls[j] == Del(rid) && Deleting(st[j], rid) && st[j].releases[rid].key == key
  }

  /** The protocol's view of the store, and what each of its steps asks of the adapter. */
  function View(s: State): Adapter { Adapter(s.now, s.locks, {}, map[]) }

  function CallOf(s: State, a: Action): Call {
    match a
    case Tick(ms) => Wait(ms)
    case Acquire(rid) =>
      if rid in s.creates && s.creates[rid].Validated? then Take(KeyOf(s.creates[rid].claim), rid) else Wait(0)
    case DeleteLock(cid) =>
      if cid in s.confirms && s.confirms[cid].HoldDeleted? then Remove(LockOf(s.confirms[cid].hold)) else Wait(0)
    case _ => Wait(0)
  }

  lemma InsertLeavesLocks(s: State, cid: nat)
    ensures InsertStep(s, cid).locks == s.locks && InsertStep(s, cid).now == s.now
  {
    if cid in s.confirms && s.confirms[cid].HoldRead? {
      InsertOf(s, cid, s.confirms[cid].token, s.confirms[cid].hold, s.confirms[cid].at);
    }
  }

  lemma DeleteLockIsRemove(ttl: int, s: State, cid: nat)
    ensures DeleteLockStep(s, cid).locks == Apply(ttl, View(s), CallOf(s, DeleteLock(cid))).locks
    ensures DeleteLockStep(s, cid).now == s.now
  {
    if cid in s.confirms && s.confirms[cid].HoldDeleted? {
      var HoldDeleted(t, h) := s.confirms[cid];
      assert DeleteLockStep(s, cid).locks == s.locks - {LockOf(h)};
    }
  }

  lemma AcquireOnLocks(ttl: int, s: State, rid: nat, c: Claim, k: LockKey)
    requires rid in s.creates && s.creates[rid] == Validated(c) && k == KeyOf(c)
    ensures var s' := AcquireStep(ttl, s, rid);
            && s'.now == s.now
            && s'.locks == if k in s.locks && s.now < s.locks[k].expiry then s.locks
                           else s.locks[k := Lock(rid, s.now + ttl)]
  {
  }

  lemma TakeOnLocks(ttl: int, s: State, rid: nat, k: LockKey)
    ensures Apply(ttl, View(s), Take(k, rid)).locks
            == if k in s.locks && s.now < s.locks[k].expiry then s.locks else s.locks[k := Lock(rid, s.now + ttl)]
  {
    TakeMeans(ttl, View(s), k, rid);
  }

  lemma AcquireIsTake(ttl: int, s: State, rid: nat)
    ensures AcquireStep(ttl, s, rid).locks == Apply(ttl, View(s), CallOf(s, Acquire(rid))).locks
    ensures AcquireStep(ttl, s, rid).now == s.now
  {
    if rid in s.creates && s.creates[rid].Validated? {
      var c := s.creates[rid].claim;
      AcquireOnLocks(ttl, s, rid, c, KeyOf(c));
      TakeOnLocks(ttl, s, rid, KeyOf(c));
    }
  }

  /** Each step of the protocol does to the locks and the clock what its call does. */
  lemma ProtocolUsesAdapter(ttl: int, s: State, a: Action)
    ensures Step(ttl, s, a).locks == Apply(ttl, View(s), CallOf(s, a)).locks
    ensures Step(ttl, s, a).now == Apply(ttl, View(s), CallOf(s, a)).now
  {
    match a
    case Tick(_) =>
    case UpdateRoom(_, _, _) =>
    case Validate(_, _, _, _) =>
    case Acquire(rid) => AcquireIsTake(ttl, s, rid);
    case WriteHold(_) =>
    case ReadHold(_, _, _) =>
    case Insert(cid) => InsertLeavesLocks(s, cid);
    case DeleteHold(_) =>
    case DeleteLock(cid) => DeleteLockIsRemove(ttl, s, cid);
  }

  // ----- Release is owner-safe -----

  lemma TimePasses(ttl: int, s: Adapter, c: Call)
    ensures s.now <= Apply(ttl, s, c).now
  {
    match c
    case Wait(_) =>
    case Take(_, _) =>
    case Get(_, _, _) =>
    case Del(_) =>
    case Remove(_) =>
  }

  /** A live entry goes only by time or removal. */
  lemma EntryStays(ttl: int, s: Adapter, c: Call, key: LockKey)
    requires Live(s, key) && !Removes(s, c, key)
    ensures key in Apply(ttl, s, c).locks && Apply(ttl, s, c).locks[key] == s.locks[key]
  {
    match c
    case Wait(_) =>
    case Take(_, _) =>
    case Get(_, _, _) =>
    case Del(_) =>
    case Remove(_) =>
  }

  /** Until it expires, the entry that the get saw stays, unless the key is removed. */
  lemma {:induction false} EntryUntilExpiry(ttl: int, st: seq<Adapter>, calls: seq<Call>, i: nat, j: nat, key: LockKey)
    requires IsTrace(ttl, st, calls) && i <= j <= |calls| && Live(st[i], key) && !RemovedBetween(st, calls, i, j, key)
    requires st[j].now < st[i].locks[key].expiry
    ensures key in st[j].locks && st[j].locks[key] == st[i].locks[key] && st[i].now <= st[j].now
    decreases j - i
  {
    if i < j {
      var p := j - 1;
      assert !RemovedBetween(st, calls, i, p, key);
      TimePasses(ttl, st[p], calls[p]);
      EntryUntilExpiry(ttl, st, calls, i, p, key);
      EntryStays(ttl, st[p], calls[p], key);
    }
  }

  /** A release under way that will delete has seen its own value, in a live lock, at its get. */
  lemma {:induction false} OwnWasSeen(ttl: int, st: seq<Adapter>, calls: seq<Call>, j: nat, rid: nat) returns (i: nat)
    requires IsTrace(ttl, st, calls) && j <= |calls| && Deleting(st[j], rid)
    ensures i < j && calls[i].Get? && calls[i].rid == rid && rid !in st[i].releases
    ensures calls[i].key == st[j].releases[rid].key && SeesOwn(st[i], calls[i].key, calls[i].val)
    decreases j
  {
    var p := j - 1;
    assert st[j] == Apply(ttl, st[p], calls[p]);
    if rid in st[p].releases {
      i := OwnWasSeen(ttl, st, calls, p, rid);
    } else {
      i := p;
    }
  }

  /** The get finds the key, not expired, with the caller's value. */
  predicate SeesOwn(s: Adapter, key: LockKey, val: nat) {
    key in s.locks && s.now < s.locks[key].expiry && s.locks[key].val == val
  }

  /** A del changes the locks only after a get of its own release that found its own value, and then it
      takes out that key and no other. */
  lemma DelTakesOnlyItsKey(ttl: int, st: seq<Adapter>, calls: seq<Call>, j: nat, rid: nat) returns (i: nat)
    requires IsTrace(ttl, st, calls) && j < |calls| && calls[j] == Del(rid) && st[j + 1].locks != st[j].locks
    ensures i < j && calls[i].Get? && calls[i].rid == rid && SeesOwn(st[i], calls[i].key, calls[i].val)
    ensures st[j + 1].locks == st[j].locks - {calls[i].key}
  {
    assert st[j + 1] == DelStep(st[j], rid);
    i := OwnWasSeen(ttl, st, calls, j, rid);
  }

  lemma DoneStaysDone(ttl: int, s: Adapter, c: Call, rid: nat)
    requires rid in s.releases && !s.releases[rid].own
    ensures rid in Apply(ttl, s, c).releases && !Apply(ttl, s, c).releases[rid].own
  {
    match c
    case Wait(_) =>
    case Take(_, _) =>
    case Get(_, _, _) =>
    case Del(_) =>
    case Remove(_) =>
  }

  /** The del of a release takes effect once. */
  lemma {:induction false} DelOnce(ttl: int, st: seq<Adapter>, calls: seq<Call>, i: nat, j: nat, rid: nat)
    requires IsTrace(ttl, st, calls) && i < j <= |calls| && calls[i] == Del(rid) && rid in st[i].releases
    ensures rid in st[j].releases && !st[j].releases[rid].own && DelStep(st[j], rid) == st[j]
    decreases j
  {
    var p := j - 1;
    assert st[j] == Apply(ttl, st[p], calls[p]);
    if i < p {
      DelOnce(ttl, st, calls, i, p, rid);
      DoneStaysDone(ttl, st[p], calls[p], rid);
    }
  }

  /** What the del of a release would wrongly delete: a live lock of someone else. */
  predicate HeldByOther(s: Adapter, key: LockKey, val: nat) { Live(s, key) && s.locks[key].val != val }

  /** If the key is not removed and has not expired, release deletes its caller's own lock. */
  lemma ReleaseIsOwnerSafe(ttl: int, st: seq<Adapter>, calls: seq<Call>, i: nat, j: nat, rid: nat, key: LockKey,
                           val: nat)
    requires IsTrace(ttl, st, calls) && ReleasedAt(st, calls, i, j, rid, key, val)
             && !RemovedBetween(st, calls, i, j, key)
    requires st[j].now < st[i].locks[key].expiry
    ensures Holds(st[j], key, val) && key !in st[j + 1].locks
  {
    EntryUntilExpiry(ttl, st, calls, i, j, key);
    assert st[j + 1] == DelStep(st[j], rid);
  }

  /** In every trace, a release that gets `left` milliseconds before the expiry and deletes at most
      `delay` later never deletes another caller's lock; `alone` if nobody else removes the key meanwhile. */
  ghost predicate SafeRelease(ttl: int, key: LockKey, left: int, delay: int, alone: bool) {
    forall st: seq<Adapter>, calls: seq<Call>, i: nat, j: nat, rid: nat, val: nat ::
      IsTrace(ttl, st, calls) && ReleasedAt(st, calls, i, j, rid, key, val)
      && st[i].locks[key].expiry == st[i].now + left && st[j].now <= st[i].now + delay
      && (alone ==> !RemovedBetween(st, calls, i, j, key))
      ==> !HeldByOther(st[j], key, val)
  }

  /** The states a trace passes through. */
  function States(ttl: int, s: Adapter, calls: seq<Call>): (st: seq<Adapter>)
    ensures |st| == |calls| + 1 && st[0] == s
    ensures forall i :: 0 <= i < |calls| ==> st[i + 1] == Apply(ttl, st[i], calls[i])
    decreases |calls|
  {
    if calls == [] then [s]
    else
      var rest := States(ttl, Apply(ttl, s, calls[0]), calls[1..]);
      assert forall i :: 0 < i < |calls| ==> calls[i] == calls[1..][i - 1];
      [s] + rest
  }

  /** Between get and del the key expires or is removed, and another caller takes it. */
  function Overtaken(ttl: int, key: LockKey, left: int, gone: Call): seq<Call>
    requires left <= ttl
  {
    [Take(key, 0), Wait(ttl - left), Get(0, key, 0), gone, Take(key, 1), Del(0)]
  }

  lemma OvertakenDeletesOther(ttl: int, key: LockKey, left: int, gone: Call, st: seq<Adapter>, calls: seq<Call>)
    requires 0 < left <= ttl && (gone == Wait(left) || gone == Remove(key)) && calls == Overtaken(ttl, key, left, gone)
    requires IsTrace(ttl, st, calls) && st[0] == Adapter(0, map[], {}, map[])
    ensures ReleasedAt(st, calls, 2, 5, 0, key, 0) && HeldByOther(st[5], key, 0)
    ensures st[2].locks[key].expiry == st[2].now + left
    ensures st[5].now == st[2].now + if gone.Wait? then left else 0
  {
    assert st[1] == Apply(ttl, st[0], calls[0]) && st[2] == Apply(ttl, st[1], calls[1])
           && st[3] == Apply(ttl, st[2], calls[2]);
    assert st[2] == Adapter(ttl - left, map[key := Lock(0, ttl)], {0}, map[]);
    assert st[3] == st[2].(releases := map[0 := Release(key, 0, true)]);
    assert st[4] == Apply(ttl, st[3], calls[3]) && st[5] == Apply(ttl, st[4], calls[4]);
    assert !Live(st[4], key) && st[4].used == {0};
    assert st[5].locks == st[4].locks[key := Lock(1, st[4].now + ttl)] && st[5].releases == st[3].releases;
  }

  /** The exact condition of owner-safety: nobody else removes the key, and the del comes before the
      lock that the get saw expires. */
  lemma SafeReleaseExactly(ttl: int, key: LockKey, left: int, delay: nat, alone: bool)
    requires 0 < left <= ttl
    ensures SafeRelease(ttl, key, left, delay, alone) <==> alone && delay < left
  {
    if alone && delay < left {
      forall st: seq<Adapter>, calls: seq<Call>, i: nat, j: nat, rid: nat, val: nat |
        IsTrace(ttl, st, calls) && ReleasedAt(st, calls, i, j, rid, key, val)
        && st[i].locks[key].expiry == st[i].now + left && st[j].now <= st[i].now + delay
        && (alone ==> !RemovedBetween(st, calls, i, j, key))
        ensures !HeldByOther(st[j], key, val)
      {
        EntryUntilExpiry(ttl, st, calls, i, j, key);
      }
    } else {
      var gone := if alone then Wait(left) else Remove(key);
      var calls := Overtaken(ttl, key, left, gone);
      var st := States(ttl, Adapter(0, map[], {}, map[]), calls);
      OvertakenDeletesOther(ttl, key, left, gone, st, calls);
      assert alone ==> !RemovedBetween(st, calls, 2, 5, key);
    }
  }
}
