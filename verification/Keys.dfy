/** The texts of lock keys, hold keys and hold tokens, and the schedule's reading of lock keys. */
module Keys {
  import opened Slots
  import opened Calendar
  import opened IsoText
  import opened Text
  import opened Ids

  datatype Range = Range(start: int, end: int)

  /** The SCAN pattern of a room's locks, without its final `*`. */
  function LockPrefix(room: RoomText): string { "lock:room:" + room.text + ":" }

  function LockKeyText(room: RoomText, start: int): string
    requires PrintableTime(start)
  {
    LockPrefix(room) + Iso(start)
  }

  /** The string that `makeHoldToken` signs. The signature is taken to be injective, so this text
      stands for the token itself. */
  function HoldToken(room: RoomText, start: int, user: Uuid): string
    requires PrintableTime(start)
  {
    room.text + "|" + Iso(start) + "|" + UuidText(user)
  }

  function HoldKeyText(token: string): string { "hold:token:" + token }

  /** The schedule's SCAN pattern for holds, without its final `*`. */
  function HoldPrefix(room: RoomText): string { "hold:room:" + room.text + ":" }

  lemma SuffixedEqual(a: string, b: string, p: string, q: string)
    requires |p| == |q| && a + p == b + q
    ensures a == b && p == q
  {
    assert |a + p| == |b + q|;
    assert (a + p)[..|a|] == a && (b + q)[..|b|] == b;
    assert (a + p)[|a|..] == p && (b + q)[|b|..] == q;
  }

  lemma PrefixEqual(p: string, a: string, b: string)
    requires p + a + ":" == p + b + ":"
    ensures a == b
  {
    assert (p + a + ":")[|p|..|p| + |a|] == a && (p + b + ":")[|p|..|p| + |b|] == b;
    assert |p + a + ":"| == |p + b + ":"|;
  }

  /** Two locks share a key exactly if they lock the same start of a room that is spelled the same. */
  lemma LockKeyIsInjective(room: RoomText, start: int, room': RoomText, start': int)
    requires PrintableTime(start) && PrintableTime(start') && Reads(room) && Reads(room')
    ensures LockKeyText(room, start) == LockKeyText(room', start') <==> room == room' && start == start'
  {
    if LockKeyText(room, start) == LockKeyText(room', start') {
      SuffixedEqual(LockPrefix(room), LockPrefix(room'), Iso(start), Iso(start'));
      PrefixEqual("lock:room:", room.text, room'.text);
      SameTextSameRoom(room, room');
      IsoIsInjective(start, start');
    }
  }

  lemma ThreePartsEqual(r: string, i: string, u: string, r': string, i': string, u': string)
    requires |i| == |i'| && |u| == |u'|
    requires r + "|" + i + "|" + u == r' + "|" + i' + "|" + u'
    ensures r == r' && i == i' && u == u'
  {
    SuffixedEqual(r + "|" + i + "|", r' + "|" + i' + "|", u, u');
    SuffixedEqual(r + "|" + i, r' + "|" + i', "|", "|");
    SuffixedEqual(r + "|", r' + "|", i, i');
    SuffixedEqual(r, r', "|", "|");
  }

  /** A token belongs to one spelling of one room, one start and one user. */
  lemma HoldTokenIsInjective(room: RoomText, start: int, user: Uuid, room': RoomText, start': int, user': Uuid)
    requires PrintableTime(start) && PrintableTime(start') && Reads(room) && Reads(room')
    ensures HoldToken(room, start, user) == HoldToken(room', start', user')
            <==> room == room' && start == start' && user == user'
  {
    if HoldToken(room, start, user) == HoldToken(room', start', user') {
      ThreePartsEqual(room.text, Iso(start), UuidText(user), room'.text, Iso(start'), UuidText(user'));
      SameTextSameRoom(room, room');
      IsoIsInjective(start, start');
      UuidTextIsInjective(user, user');
    }
  }

  /** Texts without a colon, each closed by one, are prefixes only of themselves. */
  lemma ClosedPrefix(p: string, a: string, b: string, rest: string)
    requires ':' !in a && ':' !in b
    ensures StartsWith(p + b + ":" + rest, p + a + ":") <==> a == b
  {
    var key, prefix := p + b + ":" + rest, p + a + ":";
    if a == b {
      assert key[..|prefix|] == prefix;
    } else if |a| < |b| {
      assert prefix[|p| + |a|] == ':' && key[|p| + |a|] == b[|a|];
      DifferentAt(key, prefix, |p| + |a|);
    } else if |b| < |a| {
      assert key[|p| + |b|] == ':' && prefix[|p| + |b|] == a[|b|];
      DifferentAt(key, prefix, |p| + |b|);
    } else {
      var i :| 0 <= i < |a| && a[i] != b[i];
      assert key[|p| + i] == b[i] && prefix[|p| + i] == a[i];
      DifferentAt(key, prefix, |p| + i);
    }
  }

  /** The schedule's scan for one spelling of a room meets exactly the lock keys with that spelling. */
  lemma LockScanIsExact(asked: RoomText, room: RoomText, start: int)
    requires PrintableTime(start) && Reads(asked) && Reads(room)
    ensures StartsWith(LockKeyText(room, start), LockPrefix(asked)) <==> room == asked
  {
    RoomTextHasNoSeparator(asked);
    RoomTextHasNoSeparator(room);
    ClosedPrefix("lock:room:", asked.text, room.text, Iso(start));
    if asked.text == room.text {
      SameTextSameRoom(asked, room);
    }
  }

  /** The schedule scans for holds under a prefix that create never writes. */
  lemma HoldScanFindsNothing(room: RoomText, token: string)
    ensures !StartsWith(HoldKeyText(token), HoldPrefix(room))
  {
    var key, prefix := HoldKeyText(token), HoldPrefix(room);
    assert key[5] == 't' && prefix[5] == 'r';
    DifferentAt(key, prefix, 5);
  }

  lemma HoldScanSkipsLocks(room: RoomText, room': RoomText, start: int)
    requires PrintableTime(start)
    ensures !StartsWith(LockKeyText(room', start), HoldPrefix(room))
  {
    var key, prefix := LockKeyText(room', start), HoldPrefix(room);
    assert key[0] == 'l' && prefix[0] == 'h';
    DifferentAt(key, prefix, 0);
  }

  /** `split(':').slice(3)` */
  function Tail(key: string): seq<string> {
    var parts := Split(key, ':');
    if |parts| <= 3 then [] else parts[3..]
  }

  function SlotRange(start: int, slotMin: int): Range { Range(start, SlotEnd(start, slotMin)) }

  /** The decoder as the schedule has it; `date` is the Date constructor, which ECMA-262 leaves to
      the implementation outside its own formats. */
  function DecodeAsWritten(date: string -> Option<int>, key: string, slotMin: int): Option<Range> {
    var tail := Tail(key);
    if |tail| == 1 then
      match date(tail[0])
      case None => None
      case Some(start) => Some(SlotRange(start, slotMin))
    else if |tail| >= 2 then
      match (date(tail[|tail| - 2]), date(tail[|tail| - 1]))
      case (Some(ci), Some(co)) => Some(Range(ci, co))
      case _ => None
    else None
  }

  /** The intended decoder: the instant after the room id is read whole. */
  function DecodeRejoined(key: string, slotMin: int): Option<Range> {
    match ParseIso(Join(Tail(key), ':'))
    case None => None
    case Some(start) => Some(SlotRange(start, slotMin))
  }

  lemma LockKeyTail(room: RoomText, rest: string)
    requires Reads(room)
    ensures Tail(LockPrefix(room) + rest) == Split(rest, ':')
  {
    RoomTextHasNoSeparator(room);
    TailAfterThree("lock", "room", room.text, rest);
    LockKeyParts(room, rest);
  }

  lemma LockKeyParts(room: RoomText, rest: string)
    ensures LockPrefix(room) + rest == "lock" + ":" + ("room" + ":" + (room.text + ":" + rest))
  {
    var u := room.text;
    assert "lock:room:" + u + ":" + rest == "lock:room:" + (u + ":" + rest);
    assert "lock:room:" == "lock" + ":" + "room" + ":";
  }

  lemma TailAfterThree(a: string, b: string, c: string, rest: string)
    requires ':' !in a && ':' !in b && ':' !in c
    ensures Tail(a + ":" + (b + ":" + (c + ":" + rest))) == Split(rest, ':')
  {
    var rest3 := c + ":" + rest;
    var rest2 := b + ":" + rest3;
    DropPart(a, rest2);
    DropPart(b, rest3);
    DropPart(c, rest);
    var parts := Split(a + ":" + rest2, ':');
    assert parts[1..][1..][1..] == parts[3..];
  }

  lemma DropPart(a: string, rest: string)
    requires ':' !in a
    ensures |Split(a + ":" + rest, ':')| == 1 + |Split(rest, ':')|
    ensures Split(a + ":" + rest, ':')[1..] == Split(rest, ':')
  {
    SplitHead(a, ':', rest);
  }

  /** What the rejoining decoder reads from any key create prints: the locked interval, for the
      room's present slot length. */
  lemma LockKeyRoundTrip(room: RoomText, start: int, slotMin: int)
    requires PrintableTime(start) && Reads(room)
    ensures DecodeRejoined(LockKeyText(room, start), slotMin) == Some(SlotRange(start, slotMin))
  {
    LockKeyTail(room, Iso(start));
    JoinSplit(Iso(start), ':');
    ParseIsoOfIso(start);
  }

  lemma ThreeHeads(a: string, b: string, c: string, rest: string)
    requires ':' !in a && ':' !in b && ':' !in c
    ensures Split(a + ":" + (b + ":" + (c + ":" + rest)), ':') == [a, b, c] + Split(rest, ':')
  {
    SplitHead(c, ':', rest);
    SplitHead(b, ':', c + ":" + rest);
    SplitHead(a, ':', b + ":" + (c + ":" + rest));
  }

  /** What the colons separate: a lock key names its room and start, and a scan of locks or holds its room. */
  lemma LockKeyColons(room: RoomText, start: int)
    requires PrintableTime(start) && Reads(room)
    ensures Split(LockKeyText(room, start), ':') == ["lock", "room", room.text] + Split(Iso(start), ':')
  {
    RoomTextHasNoSeparator(room);
    LockKeyParts(room, Iso(start));
    ThreeHeads("lock", "room", room.text, Iso(start));
  }

  lemma HoldPrefixColons(room: RoomText)
    requires Reads(room)
    ensures Split(HoldPrefix(room), ':') == ["hold", "room", room.text, ""]
  {
    RoomTextHasNoSeparator(room);
    assert HoldPrefix(room) == "hold" + ":" + ("room" + ":" + (room.text + ":" + ""));
    ThreeHeads("hold", "room", room.text, "");
  }

  lemma HoldKeyColons(token: string)
    ensures Split(HoldKeyText(token), ':') == ["hold", "token"] + Split(token, ':')
  {
    assert HoldKeyText(token) == "hold" + ":" + ("token" + ":" + token);
    SplitHead("token", ':', token);
    SplitHead("hold", ':', "token" + ":" + token);
  }

  lemma BarsBetween(a: string, b: string, c: string)
    requires '|' !in a && '|' !in b && '|' !in c
    ensures Split(a + "|" + b + "|" + c, '|') == [a, b, c]
  {
    SplitAround(a + "|" + b, '|', c);
    SplitHead(a, '|', b);
    SplitWhole(b, '|');
    SplitWhole(c, '|');
  }

  lemma UuidTextHasNoBar(id: Uuid, h: string)
    requires h == HexDigits(id, 32)
    ensures '|' !in UuidText(id)
  {
    assert '|' !in h;
  }

  /** A token signs its room, its start and its user. */
  lemma TokenBars(room: RoomText, start: int, user: Uuid, i: string, u: string)
    requires PrintableTime(start) && Reads(room) && i == Iso(start) && u == UuidText(user)
    ensures Split(HoldToken(room, start, user), '|') == [room.text, i, u]
  {
    RoomTextHasNoSeparator(room);
    IsoHasNoBar(start);
    UuidTextHasNoBar(user, HexDigits(user, 32));
    BarsBetween(room.text, i, u);
  }

  lemma IsoHasNoBar(t: int)
    requires PrintableTime(t)
    ensures '|' !in Iso(t)
  {
    var day, ms := t / DAY, t % DAY;
    DateTextHasNoBar(Year(day), Month(day) + 1, Date(day));
    ClockTextHasNoBar(ms / HOUR, ms / MINUTE % 60, ms / 1000 % 60, ms % 1000);
  }

  lemma DateTextHasNoBar(y: int, m: int, d: int)
    requires 0 <= y <= 9999 && 0 <= m <= 99 && 0 <= d <= 99
    ensures '|' !in DateText(y, m, d)
  {
    DigitsSeparateNothing(y / 100);
    DigitsSeparateNothing(y % 100);
    DigitsSeparateNothing(m);
    DigitsSeparateNothing(d);
  }

  lemma ClockTextHasNoBar(h: int, m: int, sec: int, ms: int)
    requires 0 <= h <= 99 && 0 <= m <= 99 && 0 <= sec <= 99 && 0 <= ms <= 999
    ensures '|' !in ClockText(h, m, sec, ms)
  {
    DigitsSeparateNothing(h);
    DigitsSeparateNothing(m);
    DigitsSeparateNothing(sec);
    DigitsSeparateNothing(ms % 100);
  }

  /** Of any key of the room the rejoining decoder reads what follows the room as one text, if it can. */
  lemma RejoinedDecodesTail(room: RoomText, rest: string, slotMin: int)
    requires Reads(room)
    ensures var r := DecodeRejoined(LockPrefix(room) + rest, slotMin);
            && (r.None? <==> ParseIso(rest).None?)
            && (r.Some? ==> Some(r.value.start) == ParseIso(rest) && r.value.end == r.value.start + slotMin * 60_000)
  {
    LockKeyTail(room, rest);
    JoinSplit(rest, ':');
  }

  lemma DigitsSeparateNothing(n: int)
    requires 0 <= n <= 99
    ensures ':' !in TwoDigits(n) && '|' !in TwoDigits(n)
  {
  }

  lemma DateTextHasNoColon(y: int, m: int, d: int)
    requires 0 <= y <= 9999 && 0 <= m <= 99 && 0 <= d <= 99
    ensures ':' !in DateText(y, m, d)
  {
    DigitsSeparateNothing(y / 100);
    DigitsSeparateNothing(y % 100);
    DigitsSeparateNothing(m);
    DigitsSeparateNothing(d);
  }

  /** What a split on `:` makes of the minutes and of the rest of a printed instant. */
  function MinuteText(t: int): string { TwoDigits(t % DAY / MINUTE % 60) }

  function SecondText(t: int): string { SecondsText(t % DAY / 1000 % 60, t % DAY % 1000) }

  lemma SplitIso(t: int)
    requires PrintableTime(t)
    ensures Split(Iso(t), ':') == [IsoDate(t / DAY) + ['T'] + TwoDigits(t % DAY / HOUR), MinuteText(t), SecondText(t)]
  {
    var day, ms := t / DAY, t % DAY;
    DateTextHasNoColon(Year(day), Month(day) + 1, Date(day));
    SplitInstant(IsoDate(day), ms / HOUR, ms / MINUTE % 60, ms / 1000 % 60, ms % 1000);
  }

  lemma SecondsTextHasNoColon(sec: int, ms: int)
    requires 0 <= sec <= 99 && 0 <= ms <= 999
    ensures ':' !in SecondsText(sec, ms)
  {
    DigitsSeparateNothing(sec);
    DigitsSeparateNothing(ms % 100);
  }

  lemma SplitInstant(date: string, h: int, m: int, sec: int, ms: int)
    requires ':' !in date && 0 <= h <= 99 && 0 <= m <= 99 && 0 <= sec <= 99 && 0 <= ms <= 999
    ensures Split(date + ClockText(h, m, sec, ms), ':')
            == [date + ['T'] + TwoDigits(h), TwoDigits(m), SecondsText(sec, ms)]
  {
    var hh, mm, ss := TwoDigits(h), TwoDigits(m), SecondsText(sec, ms);
    DigitsSeparateNothing(h);
    DigitsSeparateNothing(m);
    SecondsTextHasNoColon(sec, ms);
    SplitClock(date, hh, mm, ss);
    assert date + ClockText(h, m, sec, ms) == date + (['T'] + hh + [':'] + mm + [':'] + ss);
  }

  lemma SplitClock(date: string, hh: string, mm: string, ss: string)
    requires ':' !in date && ':' !in hh && ':' !in mm && ':' !in ss
    ensures Split(date + (['T'] + hh + [':'] + mm + [':'] + ss), ':') == [date + ['T'] + hh, mm, ss]
  {
    SplitTwoColons(date + ['T'] + hh, mm, ss);
    Associates(date, ['T'], hh);
    Associates(date, ['T'] + hh, ":");
    Associates(date, ['T'] + hh + ":", mm);
    Associates(date, ['T'] + hh + ":" + mm, ":");
    Associates(date, ['T'] + hh + ":" + mm + ":", ss);
  }

  lemma Associates(a: string, b: string, c: string)
    ensures a + (b + c) == a + b + c
  {
  }

  lemma SplitTwoColons(a: string, b: string, c: string)
    requires ':' !in a && ':' !in b && ':' !in c
    ensures Split(a + ":" + b + ":" + c, ':') == [a, b, c]
  {
    SplitWhole(c, ':');
    SplitHead(b, ':', c);
    SplitHead(a, ':', b + ":" + c);
    assert a + ":" + b + ":" + c == a + ":" + (b + ":" + c);
  }

  /** What the decoder as written makes of any tail: one part is the start of a slot, and of more parts the
      last two are its bounds. */
  lemma AsWrittenDecodesTail(date: string -> Option<int>, room: RoomText, parts: seq<string>, slotMin: int)
    requires Reads(room) && |parts| > 0 && forall i :: 0 <= i < |parts| ==> ':' !in parts[i]
    ensures var n := |parts|;
            var r := DecodeAsWritten(date, LockPrefix(room) + Join(parts, ':'), slotMin);
            var from := date(if n == 1 then parts[0] else parts[n - 2]);
            var to := date(parts[n - 1]);
            && (r.None? <==> from.None? || to.None?)
            && (r.Some? ==> r.value.start == from.value)
            && (r.Some? ==> r.value.end == if n == 1 then from.value + slotMin * 60_000 else to.value)
  {
    LockKeyTail(room, Join(parts, ':'));
    SplitJoin(parts, ':');
    TailDecodes(date, LockPrefix(room) + Join(parts, ':'), parts, slotMin);
  }

  lemma TailDecodes(date: string -> Option<int>, key: string, parts: seq<string>, slotMin: int)
    requires |parts| > 0 && Tail(key) == parts
    ensures var n := |parts|;
            var r := DecodeAsWritten(date, key, slotMin);
            var from := date(if n == 1 then parts[0] else parts[n - 2]);
            var to := date(parts[n - 1]);
            && (r.None? <==> from.None? || to.None?)
            && (r.Some? ==> r.value.start == from.value)
            && (r.Some? ==> r.value.end == if n == 1 then from.value + slotMin * 60_000 else to.value)
  {
  }

  lemma NoTailNoRange(date: string -> Option<int>, key: string, slotMin: int)
    requires |Split(key, ':')| <= 3
    ensures DecodeAsWritten(date, key, slotMin) == None
  {
  }

  /** As written, a key create prints always splits into a three-part tail, so the branch that reads
      the start is never taken for it. */
  lemma AsWrittenTailHasThreeParts(room: RoomText, start: int)
    requires PrintableTime(start) && Reads(room)
    ensures |Tail(LockKeyText(room, start))| == 3
    ensures Join(Tail(LockKeyText(room, start)), ':') == Iso(start)
  {
    LockKeyTail(room, Iso(start));
    SplitIso(start);
    JoinSplit(Iso(start), ':');
  }

  /** The range that the schedule reads from the key of a lock, as written. */
  function WrittenRange(date: string -> Option<int>, start: int): Option<Range> {
    match (date(MinuteText(start)), date(SecondText(start)))
    case (Some(ci), Some(co)) => Some(Range(ci, co))
    case _ => None
  }

  lemma EndsInLockKey(x: string, room: RoomText, rest: string)
    requires Reads(room)
    ensures Split(x + (LockPrefix(room) + rest), ':') == Split(x + "lock", ':') + ["room", room.text] + Split(rest, ':')
  {
    RoomTextHasNoSeparator(room);
    LockKeyParts(room, rest);
    var tail := "room" + ":" + (room.text + ":" + rest);
    assert x + (LockPrefix(room) + rest) == (x + "lock") + [':'] + tail;
    SplitAround(x + "lock", ':', tail);
    SplitHead("room", ':', room.text + ":" + rest);
    SplitHead(room.text, ':', rest);
  }

  /** As written, of a text that ends in a lock key only the minutes and the seconds at its end are read. */
  lemma AsWrittenReadsEnd(date: string -> Option<int>, x: string, room: RoomText, start: int, slotMin: int)
    requires PrintableTime(start) && Reads(room)
    ensures DecodeAsWritten(date, x + LockKeyText(room, start), slotMin) == WrittenRange(date, start)
  {
    EndsInLockKey(x, room, Iso(start));
    SplitIso(start);
    var parts := Split(x + LockKeyText(room, start), ':');
    assert parts[|parts| - 2] == MinuteText(start) && parts[|parts| - 1] == SecondText(start);
  }

  /** As written, the range is made of the minutes and of the seconds alone. */
  lemma AsWrittenDecodes(date: string -> Option<int>, room: RoomText, start: int, slotMin: int)
    requires PrintableTime(start) && Reads(room)
    ensures DecodeAsWritten(date, LockKeyText(room, start), slotMin) == WrittenRange(date, start)
  {
    AsWrittenReadsEnd(date, "", room, start, slotMin);
    assert "" + LockKeyText(room, start) == LockKeyText(room, start);
  }

  /** As written, a batch of keys, which `String(k)` joins with commas when the scan yields arrays, is read
      as its last key. */
  lemma BatchReadsAsLast(date: string -> Option<int>, keys: seq<string>, room: RoomText, start: int, slotMin: int)
    requires PrintableTime(start) && Reads(room) && keys != [] && keys[|keys| - 1] == LockKeyText(room, start)
    ensures DecodeAsWritten(date, Join(keys, ','), slotMin) == DecodeAsWritten(date, LockKeyText(room, start), slotMin)
  {
    var x := JoinEndsInLast(keys, ',');
    AsWrittenReadsEnd(date, x, room, start, slotMin);
    AsWrittenDecodes(date, room, start, slotMin);
  }

  /** The exact condition under which the slot of a lock is read back, as written: the Date constructor
      makes its start of the two digits of its minutes, and its end of the text of its seconds. */
  lemma AsWrittenReadsExactly(date: string -> Option<int>, room: RoomText, start: int, slotMin: int)
    requires PrintableTime(start) && Reads(room)
    ensures DecodeAsWritten(date, LockKeyText(room, start), slotMin) == Some(SlotRange(start, slotMin))
            <==> date(MinuteText(start)) == Some(start) && date(SecondText(start)) == Some(SlotEnd(start, slotMin))
  {
    AsWrittenDecodes(date, room, start, slotMin);
  }

  const NO_SECONDS := "00.000Z"

  /** The starts that create accepts are whole minutes. */
  lemma AcceptedStartHasNoSeconds(start: int, slotMin: int)
    requires slotMin > 0 && Aligned(start, slotMin)
    ensures SecondText(start) == NO_SECONDS
  {
    SecondsOfDay(start);
    assert SecondsText(0, 0) == NO_SECONDS;
  }

  lemma SecondsOfDay(t: int)
    ensures t % DAY / 1000 % 60 == UtcSeconds(t) && t % DAY % 1000 == UtcMilliseconds(t)
  {
    var day, ms := t / DAY, t % DAY;
    QuotientIsUnique(t, 1000, day * 86_400 + ms / 1000, ms % 1000);
    QuotientIsUnique(t / 1000, 60, day * 1440 + ms / 1000 / 60, ms / 1000 % 60);
  }

  /** As written, whatever the Date constructor does, at most one of all starts that create accepts for a
      slot length is ever read back, in any room. */
  lemma OneStartReadsBack(date: string -> Option<int>, room: RoomText, s: int, other: RoomText, t: int, slotMin: int)
    requires PrintableTime(s) && PrintableTime(t) && Reads(room) && Reads(other)
    requires slotMin > 0 && Aligned(s, slotMin) && Aligned(t, slotMin)
    requires DecodeAsWritten(date, LockKeyText(room, s), slotMin) == Some(SlotRange(s, slotMin))
    requires DecodeAsWritten(date, LockKeyText(other, t), slotMin) == Some(SlotRange(t, slotMin))
    ensures s == t
  {
    AsWrittenReadsExactly(date, room, s, slotMin);
    AsWrittenReadsExactly(date, other, t, slotMin);
    AcceptedStartHasNoSeconds(s, slotMin);
    AcceptedStartHasNoSeconds(t, slotMin);
  }

  /** On a key whose tail is one part, such as a date-only key, the two decoders agree. */
  lemma DateOnlyKeyRoundTrip(date: string -> Option<int>, room: RoomText, day: int, slotMin: int)
    requires Printable(day) && Reads(room) && date(IsoDate(day)) == ParseIso(IsoDate(day))
    ensures DecodeAsWritten(date, LockPrefix(room) + IsoDate(day), slotMin) == Some(SlotRange(day * DAY, slotMin))
    ensures DecodeRejoined(LockPrefix(room) + IsoDate(day), slotMin) == Some(SlotRange(day * DAY, slotMin))
  {
    LockKeyTail(room, IsoDate(day));
    DateTextHasNoColon(Year(day), Month(day) + 1, Date(day));
    SplitWhole(IsoDate(day), ':');
    ParseDayOfIsoDate(day);
  }
}
