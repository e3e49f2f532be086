# Room reservation: a verified model

A Dafny model of the reservation system's core: the Redis slot lock, the hold token and the confirmed
row under the Postgres exclusion constraint, as a concurrent step system; the daily schedule computed
from its state; the pub/sub channel patterns; and the scoped, paged booking search.
`dafny verify dfyconfig.toml` checks the whole project.

## How it is laid out

- `Protocol.dfy` is the step system. A step is what one handler does between two awaits on the shared
  stores: validate, acquire the lock, write the hold; read the hold, insert the row, delete the hold,
  delete the lock; and a room update or the passing of time. A run that is never scheduled again is a
  crashed one. `ProtocolInvariant.dfy` has what every step keeps, `RunHistory.dfy` what a state says
  about the execution that led to it, `HoldGuarantee.dfy` who can hold and take a slot,
  `Executions.dfy` undisturbed runs and concrete executions, `SlotExactness.dfy` the exact conditions
  on slot lengths, delays and spellings, `Packing.dfy` how much a window takes. `LockRelease.dfy` is the
  lock adapter with its two-step release, as a system of its own.
- `BookingServer.dfy` is the imperative side: the stores and the handlers, updated in place, each
  method tied to the protocol step it performs.
- `Slots.dfy`, `Calendar.dfy`, `IsoText.dfy`, `Ids.dfy`, `Text.dfy` and `Keys.dfy` are times, dates
  (section 21.4.1 of ECMA-262), texts, uuids and key strings. `Schedule.dfy` is the schedule query and
  its per-day specification; `ScheduleRuns.dfy` evaluates it on the states of an execution.
- `Regex.dfy` is the part of section 22.2.1 and 22.2.2 of ECMA-262 that the channel patterns use;
  `PubSub.dfy` the translation and the dispatch. `Search.dfy` is the booking search.

## Room ids and their spellings

Create makes its lock key, token and hold of the room id as the client sent it, not of the id of the
room it found. The validation lets both cases through and Postgres reads them as one uuid, so one room
has several keys for one slot as soon as its id has a letter. A room in a request is therefore a
`RoomText`: the text, and the uuid that Postgres reads it as. Locks, tokens and holds carry the text;
rows carry the uuid. The guarantees that depend on it are stated for the executions whose requests spell
the room in a given set of ways, and hold exactly if there is one way (the other conditions aside);
`CapitalsBreakHold` is the concrete case of lower and upper case. The protocol compares texts and does
not read them; where texts matter, `Reads` says that the text spells the uuid.

## Where the code and its documentation part

- The create handler inserts a row before it locks (lines 60-74), without `endAt`, while `end_at` is
  NOT NULL in the migration. So as written create always ends in SLOT_TAKEN
  (`CreateBookingAsWritten`), and had the row gone in, confirm's own insert would conflict with it
  (`EarlyRowWouldBlockConfirm`). The protocol is the intended one, without that insert.
- The README's PENDING and EXPIRED rows and its expiry subscriber are not in the code: only CONFIRMED
  rows are written, and none is deleted.
- The schedule scans `hold:room:*`, but create writes `hold:token:*`; holds show only through their
  locks, and locks only under the spelling the schedule is asked for. It also splits lock keys on `:`,
  which cuts the time inside them. Both the split as written and the intended reading, with the tail
  rejoined, are modelled. As written it is wrong in some execution whatever the Date constructor does
  (`AsWrittenIsWrong`); the results about what the schedule shows use the intended reading.
- A live lock and hold can be had on a slot that is already booked, because create does not look at
  the table; such a hold is never confirmed (`BookedSlotRefuses`). That is why the hold guarantee asks
  for a slot without a row at the time of the lock.
- `Date.UTC` takes the years 0 to 99 for 1900 to 1999, so a schedule asked from such a year starts
  elsewhere (`StartOfDateIsMidnight`), and asking in two parts is asking at once only while the shift
  stays the same (`ScheduleComposes`).
- A search is ordered by start alone, so its pages depend on how the database breaks ties, even among
  one user's own bookings (`UserSearchCanRepeatARow`).

## Model

| member | source | states |
|---|---|---|
| SlotExactness.HoldsHonouredExactly | src/core/booking/application/commands/confirm-booking.handler.ts:31-62 | the exact condition of the hold guarantee: in every execution with delays up to delta and rho and these slot lengths and spellings of the room, room updates included, the owner's first confirm of a live hold gets its row exactly when the slot had none at its lock, if and only if delta = rho = 0, there is one spelling and one length, and it divides 60 |
| HoldGuarantee.HoldIsHonoured | src/core/booking/application/commands/confirm-booking.handler.ts:31-62 | the hold guarantee itself: under that condition, whatever interleaves, the first confirm inserts its row if and only if the slot had no row when the lock was taken |
| HoldGuarantee.HoldWorth | src/core/booking/application/commands/confirm-booking.handler.ts:31-62 | the same under delays: with holds at most delta after locks, inserts at most rho after reads and one spelling, a slot that has no row delta + rho after the lock goes to its owner's first insert before the lock expires |
| HoldGuarantee.OnlyOwnerTakes | src/core/booking/application/commands/confirm-booking.handler.ts:31-62 | in that window an insert for a slot without a row can only be by the user who took the lock, if all requests spell the room as he did |
| HoldGuarantee.SlotStaysFree | src/core/booking/application/commands/confirm-booking.handler.ts:47-62 | in that window the slot keeps no row until the owner's own row is in |
| HoldGuarantee.HoldersCoexistBriefly | src/core/booking/application/commands/create-booking.handler.ts:79-104 | two users who spell the room the same hold a slot without a row together for at most delta, the delay between a lock and its hold |
| HoldGuarantee.OneHolder | src/core/booking/application/commands/create-booking.handler.ts:79-104 | with delta = 0 a slot without a row has one live hold at most per spelling of its room |
| SlotExactness.OneHolderExactly | src/core/booking/application/commands/create-booking.handler.ts:79-104 | a slot without a row has one live hold at most, in every execution, if and only if delta = 0 and all requests spell the room the same |
| HoldGuarantee.TwoHoldersAtMost | src/core/booking/application/commands/create-booking.handler.ts:79-104 | with delta up to the TTL it has two at most per spelling |
| SlotExactness.TwoHoldersExactly | src/core/booking/application/commands/create-booking.handler.ts:79-104 | it has two live holds at most, in every execution, if and only if delta = 0 and there are at most two spellings, or delta is at most the TTL and there is one |
| HoldGuarantee.BookedSlotRefuses | src/core/booking/application/commands/confirm-booking.handler.ts:47-62 | no confirm books a slot that has a row, whatever locks and holds create still hands out for it |
| HoldGuarantee.FreeSlotAccepts | src/migrations/1710000000000-init_core.ts:73-80 | with a fixed slot length dividing 60, only a row at the very same start can make the exclusion constraint refuse a hold's row |
| SlotExactness.DelayBreaksHold | src/core/booking/application/commands/create-booking.handler.ts:79-104 | for every slot length, one millisecond between lock and hold, or between read and insert, is enough for an execution in which the guarantee fails: a live hold on a slot that was free at its lock is refused |
| SlotExactness.CrossingBreaksHold | src/core/booking/application/commands/create-booking.handler.ts:50-59 | for every slot length that does not divide 60, the guarantee fails even without delays, in an execution in which a held slot is lost to an overlapping hold |
| SlotExactness.UpdateBreaksHold | src/core/room/application/command/update-room.handler.ts:18-19 | so it does for any two slot lengths, even if both divide 60, when the owner makes the slots longer while one is held |
| SlotExactness.SpellingBreaksHold | src/core/booking/application/commands/create-booking.handler.ts:30-87 | with two spellings of the room the guarantee fails even without delays and with slots that divide the hour: two users lock and hold one slot at once |
| SlotExactness.CapitalsBreakHold | src/core/booking/application/dto/create-booking.dto.ts:5 | so it does for every room whose id has a letter, once the id is sent in lower and in upper case, which both pass the validation |
| SlotExactness.LocksApartExactly | src/core/booking/application/commands/create-booking.handler.ts:79-85 | the intervals of a room's live locks are disjoint in every state of every execution with these slot lengths and spellings if and only if there is one of each and the length divides 60 |
| Ids.SpellingsDifferWithLetters | src/core/booking/application/dto/create-booking.dto.ts:5 | a room has more than one spelling that passes the validation if and only if its id has a letter |
| Ids.UuidTextMeans | src/migrations/1710000000000-init_core.ts:41 | the text of a uuid splits on hyphens into groups of 8, 4, 4, 4 and 12 hexadecimal digits that write its number |
| Slots.ExactAlignment | src/core/booking/application/commands/create-booking.handler.ts:50-59 | the starts accepted by the minute, second and millisecond test give pairwise disjoint slots of length d if and only if d divides 60 |
| Protocol.ValidationCauses | src/core/booking/application/commands/create-booking.handler.ts:30-59 | for every clock, rooms table and request: accepted exactly for a known room with a positive slot length and a start that is a date, at least now - 1000, a multiple of 60000 and, in minutes of its hour, of the slot length; and each of the five errors exactly for its cause, in the order of the handler |
| Protocol.ReadCauses | src/core/booking/application/commands/confirm-booking.handler.ts:22-45 | for every state and token: BAD_PARAMS exactly without a token, EXPIRED exactly with a token and no live hold under it, FORBIDDEN exactly with a live hold of another user, and else the hold is read |
| Protocol.InsertAllowedMeans | src/migrations/1710000000000-init_core.ts:73-80 | the constraint and the range type accept a row exactly if its bounds are in order and no instant of it is an instant of another row of its room; empty ranges meet nothing |
| Protocol.UpdateRoomMeans | src/core/room/application/command/update-room.handler.ts:10-20 | for every state: an update by the owner that carries a slot length sets it, longer or shorter, and changes nothing else; any other update changes nothing |
| RunHistory.Provenance | src/core/booking/application/commands/create-booking.handler.ts:76-104 | every row of every state goes back to a request validated against the slot length then in force, then locked, held, read live by the same user and inserted, in this order; its interval is that slot, also after room updates |
| RunHistory.BookedOnce | src/core/booking/application/commands/confirm-booking.handler.ts:47-62 | over a whole execution at most one insert succeeds per room and start, however many confirms share a token |
| RunHistory.LockDeletedAfterBooking | src/core/booking/application/commands/confirm-booking.handler.ts:64-65 | the unchecked deletion of a lock comes only after a row for its slot, inserted by the same confirm |
| RunHistory.LockDeletedOnce | src/core/booking/application/commands/confirm-booking.handler.ts:64-65 | no lock key is deleted twice by confirms |
| RunHistory.NoDoubleBooking | src/migrations/1710000000000-init_core.ts:73-80 | the rows of a room are non-empty and disjoint in every state, across room updates |
| RunHistory.AcquisitionLasts | src/core/booking/application/commands/create-booking.handler.ts:79-104 | no acquisition and no hold record is ever unmade |
| RunHistory.BookingLasts | src/core/booking/application/commands/confirm-booking.handler.ts:47-65 | nor is the record of a confirm that has inserted its row |
| RunHistory.RowsGrow | src/core/booking/application/commands/confirm-booking.handler.ts:47-56 | time and the bookings table only grow |
| ProtocolInvariant.StepKeeps | src/core/booking/application/commands/confirm-booking.handler.ts:31-65 | every step of create, confirm, room update and the clock keeps the invariant on claims, holds, locks and rows |
| ProtocolInvariant.InvHolds | src/core/booking/application/commands/create-booking.handler.ts:29-118 | the invariant holds in every state of every execution |
| ProtocolInvariant.TakeKeepsApart | src/core/booking/infrastructure/redis/redis-lock.service.ts:14-18 | while a slot has no row, any two acquisitions of one of its keys lie a whole TTL apart |
| ProtocolInvariant.RowsStayDisjoint | src/migrations/1710000000000-init_core.ts:73-80 | an insert the constraint accepts keeps rows non-empty and disjoint |
| LockRelease.SafeReleaseExactly | src/core/booking/infrastructure/redis/redis-lock.service.ts:19-22 | among any acquires, releases and deletions by other callers, a release whose get comes left milliseconds before the expiry and whose del comes at most delay later never deletes another's lock, if and only if nobody else removes the key in between and delay is below left |
| LockRelease.ReleaseIsOwnerSafe | src/core/booking/infrastructure/redis/redis-lock.service.ts:19-22 | then what it deletes is its caller's own lock |
| LockRelease.EntryUntilExpiry | src/core/booking/infrastructure/redis/redis-lock.service.ts:14-22 | until it expires, the entry the get saw stays, unless the key is removed, whatever acquires and releases interleave |
| LockRelease.DelTakesOnlyItsKey | src/core/booking/infrastructure/redis/redis-lock.service.ts:19-22 | in every trace, a del changes the locks only after a get of its own release that found its own value in a live lock, and takes out that key and no other |
| LockRelease.DelOnce | src/core/booking/infrastructure/redis/redis-lock.service.ts:19-22 | and it takes effect once |
| LockRelease.ProtocolUsesAdapter | src/core/booking/infrastructure/redis/redis-lock.service.ts:14-18 | each step of the protocol does to the locks what its call of the adapter does |
| Packing.PackingBound | src/migrations/1710000000000-init_core.ts:73-80 | in every state the booked time of a room inside any window counts each booked instant once, so it is at most the window; and if the room never took requests for slots below m minutes, the number of its bookings there is at most the window over m minutes |
| ScheduleRuns.HeldFreedOnlyByExpiry | src/core/booking/application/commands/confirm-booking.handler.ts:47-65 | with an unchanged slot length a HELD day turns FREE only in a step of time in which a lock that marked it expires |
| ScheduleRuns.BookedForGood | src/core/room/application/queries/get-room-schedule.handler.ts:104-110 | a BOOKED day stays BOOKED for the rest of the execution |
| ScheduleRuns.ConfirmedDaysAreBooked | src/core/booking/application/commands/confirm-booking.handler.ts:47-65 | once a confirm's row is in, all days of its slot are BOOKED, before, between and after the two deletions |
| ScheduleRuns.ScheduleReadsState | src/core/room/application/queries/get-room-schedule.handler.ts:54-93 | with the key tail rejoined, the keys of any state show exactly its live locks under the spelling asked for, and no hold |
| ScheduleRuns.ShowsRoomExactly | src/core/room/application/queries/get-room-schedule.handler.ts:23-93 | so the schedule shows the room as it is, in every state of every execution with these spellings, if and only if it is asked for in the one spelling that all requests use |
| ScheduleRuns.HoldsAreInvisible | src/core/room/application/queries/get-room-schedule.handler.ts:54-70 | the scan for hold:room:* finds none of the keys create writes |
| ScheduleRuns.AsWrittenReadsState | src/core/room/application/queries/get-room-schedule.handler.ts:54-93 | as written, the keys of any state show its live locks at what the Date constructor makes of the minutes and seconds of their starts |
| ScheduleRuns.AsWrittenIsRightWhen | src/core/room/application/queries/get-room-schedule.handler.ts:76-109 | so it is right on a day if and only if the day is booked, or a live lock's slot touches it exactly if what is read of a live lock does |
| ScheduleRuns.RefusedSecondsShowNoLock | src/core/room/application/queries/get-room-schedule.handler.ts:86-92 | if the Date constructor refuses 00.000Z, then in every state of every execution it is right on a day if and only if the day is not HELD |
| ScheduleRuns.AsWrittenIsWrong | src/core/room/application/queries/get-room-schedule.handler.ts:76-92 | for every Date constructor, room and slot length there is an execution and a snapshot of one of its states on which the schedule as written is wrong |
| ScheduleRuns.DecodedKeyIsHoldInterval | src/core/room/application/queries/get-room-schedule.handler.ts:76-92 | the interval decoded from a hold's lock key is the hold's own while the slot length is unchanged |
| Schedule.DailySchedule | src/core/room/application/queries/get-room-schedule.handler.ts:22-119 | the handler: cut to the UTC date, window, scans and day loop give the days of the per-day specification over the whole snapshot; no room, no days |
| Schedule.DaysOfRoom | src/core/room/application/queries/get-room-schedule.handler.ts:34-111 | window filter, two scan loops and day loop, against the same specification |
| Schedule.ScanHolds | src/core/room/application/queries/get-room-schedule.handler.ts:54-70 | the first scan loop collects exactly the readable hold intervals that touch the window |
| Schedule.ScanLocks | src/core/room/application/queries/get-room-schedule.handler.ts:72-93 | the second scan loop collects exactly the decoded lock intervals that touch the window |
| Schedule.DayLoop | src/core/room/application/queries/get-room-schedule.handler.ts:97-111 | the day loop pushes one entry for each of the n days, in order |
| Schedule.DayAt | src/core/room/application/queries/get-room-schedule.handler.ts:99-110 | one turn of the day loop: BOOKED before HELD before FREE for that day's 24 hours |
| Schedule.AnyTouches | src/core/room/application/queries/get-room-schedule.handler.ts:104-107 | true exactly if some range touches the day |
| Schedule.WindowDecidesDay | src/core/room/application/queries/get-room-schedule.handler.ts:37-43 | filtering to the window first loses nothing on any day of the window |
| Schedule.MarkedDaysAreContiguous | src/core/room/application/queries/get-room-schedule.handler.ts:104-107 | a range, empty or not, marks exactly the days from that of its first to that of its last instant |
| Schedule.StatusMeans | src/core/room/application/queries/get-room-schedule.handler.ts:54-110 | BOOKED exactly if an instant of a row of the room falls on the day; HELD exactly if none does and some key lock:room:<room>:* is decoded, or the two texts under some key hold:room:<room>:* are read, as a range with an instant on the day; written out on texts and instants |
| Schedule.ScheduleComposes | src/core/room/application/queries/get-room-schedule.handler.ts:34-35 | the days of a + b from a date are the days of a and then, a days later, the days of b, if and only if b = 0 or both dates are read with the same shift: both outside the years 0 to 99, both up to 0000-02-29, or both from 0000-03-01 to 0099-12-31 |
| Schedule.DatesIncreaseAndReadBack | src/core/room/application/queries/get-room-schedule.handler.ts:110 | the printed dates of an answer strictly increase, and create reads each back as its day's start |
| Calendar.SetUtcDateAddsDays | src/core/room/application/queries/get-room-schedule.handler.ts:98-102 | setUTCDate(getUTCDate() + i) moves by exactly i days, across months, years and leap days |
| Calendar.StartOfDateIsMidnight | src/core/room/application/queries/get-room-schedule.handler.ts:27-33 | the cut to the UTC date is the midnight before the instant exactly when the year is not 0 to 99, which Date.UTC takes for 1900 to 1999 |
| Calendar.StartDayOf | src/core/room/application/queries/get-room-schedule.handler.ts:27-33 | and else it is 693960 days later, or 693961 before March of year 0 |
| Calendar.FieldsOfMakeDay | src/core/room/application/queries/get-room-schedule.handler.ts:27-33 | year, month and date of the day made from a valid date are that date |
| Calendar.MonthLengths | src/core/room/application/queries/get-room-schedule.handler.ts:27-33 | in every year the months have 31 days, April, June, September and November 30, February 28 or 29 by the divisibility rule written out; and the day of a date is the formula of ECMA-262 for its year plus those lengths plus its date; twelve months are a year |
| Calendar.DateOfDay | src/core/room/application/queries/get-room-schedule.handler.ts:110 | a day has a year, month and date if and only if the formula and those lengths give it |
| Calendar.MakeDayOfFields | src/core/room/application/queries/get-room-schedule.handler.ts:27-33 | the day made from a day's own year, month and date is that day |
| Calendar.FormulaCountsDays | src/core/room/application/queries/get-room-schedule.handler.ts:98-102 | the DayFromYear formula of ECMA-262 counts the days of all years, leap years included |
| Calendar.DaysOrderAsDates | src/core/room/application/queries/get-room-schedule.handler.ts:110 | days are ordered as their dates are |
| IsoText.PrintedDatesIncrease | src/core/room/application/queries/get-room-schedule.handler.ts:110 | printed dates sort as strings as the days do |
| IsoText.PrintedDateStartsItsDay | src/core/booking/application/commands/create-booking.handler.ts:41-45 | a printed date sent as startAt is read as that day's midnight |
| IsoText.IsoDateMeans | src/core/room/application/queries/get-room-schedule.handler.ts:110 | the printed date of any day, character by character |
| IsoText.IsoMeans | src/core/booking/application/commands/create-booking.handler.ts:79 | the printed instant, character by character |
| IsoText.StartsThatAreRead | src/core/booking/application/commands/create-booking.handler.ts:41-45 | a text is read as the instant t exactly if it is the print of t, or the date of the day that starts at t, or the date before with the clock T24:00:00.000Z |
| IsoText.ParseIsoOfIso | src/core/booking/application/commands/create-booking.handler.ts:79 | the instant printed into keys, tokens and holds is the instant read back |
| IsoText.IsoDateOfParseDay | src/core/booking/application/commands/create-booking.handler.ts:41-45 | every accepted date text is the print of the day it is read as |
| Keys.LockKeyIsInjective | src/core/booking/application/commands/create-booking.handler.ts:79 | two locks share a key if and only if they are for the same start of a room spelled the same |
| Keys.HoldTokenIsInjective | src/core/_shared/security/token.util.ts:5-12 | two signed texts are equal if and only if room as spelled, start and user are |
| Keys.LockKeyColons | src/core/booking/application/commands/create-booking.handler.ts:79 | between its colons a lock key has lock, room, the room as spelled, and the pieces of the printed start |
| Keys.TokenBars | src/core/_shared/security/token.util.ts:5-12 | between its bars the signed text has the room as spelled, the printed start and the user, in this order |
| Keys.HoldPrefixColons | src/core/room/application/queries/get-room-schedule.handler.ts:54-57 | the scan for holds asks for keys of hold, room and the room as spelled |
| Keys.HoldKeyColons | src/core/booking/application/commands/create-booking.handler.ts:87-104 | and create writes keys of hold, token and the token |
| Keys.LockKeyRoundTrip | src/core/room/application/queries/get-room-schedule.handler.ts:76-92 | the rejoining decoder recovers the start and the slot interval from every key create prints |
| Keys.RejoinedDecodesTail | src/core/room/application/queries/get-room-schedule.handler.ts:76-92 | of any key of the room, the rejoining decoder reads exactly what the Date constructor makes of the whole text after the room, for the slot length in minutes |
| Keys.AsWrittenDecodesTail | src/core/room/application/queries/get-room-schedule.handler.ts:76-92 | as written, a tail of one part is the start of a slot and of a longer tail the last two parts are the bounds; a part that is no date gives no range |
| Keys.NoTailNoRange | src/core/room/application/queries/get-room-schedule.handler.ts:76-92 | a key with nothing after the room is read by neither branch |
| Keys.AsWrittenTailHasThreeParts | src/core/room/application/queries/get-room-schedule.handler.ts:76-86 | as written, a key create prints always splits into a three-part tail, so the branch that reads the start is never taken |
| Keys.AsWrittenReadsExactly | src/core/room/application/queries/get-room-schedule.handler.ts:76-92 | as written, the slot of a lock is read back if and only if the Date constructor makes its start of the two digits of its minutes and its end of the text of its seconds |
| Keys.OneStartReadsBack | src/core/room/application/queries/get-room-schedule.handler.ts:76-92 | so of all starts that create accepts for a slot length, at most one is ever read back, whatever the Date constructor does |
| Keys.BatchReadsAsLast | src/core/room/application/queries/get-room-schedule.handler.ts:72-92 | as written, an array of keys is read as its last key |
| Keys.DateOnlyKeyRoundTrip | src/core/room/application/queries/get-room-schedule.handler.ts:78-85 | on date-only keys both decoders read the day's start |
| Keys.LockScanIsExact | src/core/room/application/queries/get-room-schedule.handler.ts:72-75 | the scan for one spelling of a room meets exactly the lock keys with that spelling |
| Keys.HoldScanFindsNothing | src/core/room/application/queries/get-room-schedule.handler.ts:54-57 | no key create writes for a hold is under the scanned prefix |
| Text.StartsWithMeans | src/core/room/application/queries/get-room-schedule.handler.ts:54-75 | a key is scanned exactly if it is the prefix and any text, also none |
| BookingServer.Server.Acquire | src/core/booking/infrastructure/redis/redis-lock.service.ts:14-18 | SET NX EX: taken exactly when no live entry has the key; nothing else changes |
| BookingServer.Server.Release | src/core/booking/infrastructure/redis/redis-lock.service.ts:19-22 | undisturbed, it removes the live lock with its caller's value and nothing else |
| BookingServer.Server.InsertRow | src/migrations/1710000000000-init_core.ts:53-80 | a row goes in exactly when it has an end, its bounds are in order and none of its instants is one of a row of its room; a refusal changes nothing |
| BookingServer.Server.ValidateCreate | src/core/booking/application/commands/create-booking.handler.ts:30-59 | the room lookup and the checks, in order, are the protocol's validation step; the claim that is accepted and the exact cause of each error are spelled out on the request, the clock and the room |
| BookingServer.Server.LockSlot | src/core/booking/application/commands/create-booking.handler.ts:79-85 | the lock is the protocol's acquire step: taken exactly when the key is absent or expired, until one TTL from now |
| BookingServer.Server.WriteHold | src/core/booking/application/commands/create-booking.handler.ts:87-118 | the hold and the reply are the protocol's hold step: the interval from the start over the slot length in minutes, until one TTL from now |
| BookingServer.Server.CreateBooking | src/core/booking/application/commands/create-booking.handler.ts:29-119 | the handler without the early insert, undisturbed: three protocol steps; it replies with the token, interval and expiry exactly for an acceptable request whose key has no live lock, and each error has its exact cause |
| BookingServer.Server.CreateBookingAsWritten | src/core/booking/application/commands/create-booking.handler.ts:60-74 | with the early insert, which has no end, every request fails, an acceptable one with SLOT_TAKEN and any other with the error of its check, and no store, room or clock changes |
| BookingServer.Server.ReadHold | src/core/booking/application/commands/confirm-booking.handler.ts:22-45 | token, hold and owner checks are the protocol's read step; the hold that is read and the exact cause of each error are spelled out |
| BookingServer.Server.InsertBooking | src/core/booking/application/commands/confirm-booking.handler.ts:47-62 | the insert is the protocol's insert step: the row is the hold's interval under the confirm's id, and a refusal leaves the table |
| BookingServer.Server.DeleteHold | src/core/booking/application/commands/confirm-booking.handler.ts:64 | deletes the hold under the token |
| BookingServer.Server.DeleteLock | src/core/booking/application/commands/confirm-booking.handler.ts:65 | deletes the lock of the hold's slot, whoever acquired it |
| BookingServer.Server.ConfirmBooking | src/core/booking/application/commands/confirm-booking.handler.ts:21-76 | the handler, undisturbed: four protocol steps and the row's id or the error; a failing notification is an error after the booking |
| BookingServer.Server.LoadRoom | src/core/room/application/command/update-room.handler.ts:11-17 | only the owner gets the room to change; each error has its exact cause |
| BookingServer.Server.SaveRoom | src/core/room/infrastructure/repository/room.repo.ts:14-17 | in whatever state it comes, the save writes exactly the slot length the request carries, longer or shorter, and nothing else; undefined writes nothing and null is refused |
| BookingServer.Server.UpdateRoom | src/core/room/application/command/update-room.handler.ts:10-20 | undisturbed, load, assign and save set the room's slot length to the one the request carries and leave every other room; without one, or on an error, all rooms stay; each error has its exact cause |
| BookingServer.RoomEntity.Assign | src/core/room/application/command/update-room.handler.ts:18 | copies the request's property, also when it is undefined, so the loaded value plays no part |
| BookingServer.CreateThenConfirm | src/core/booking/application/commands/confirm-booking.handler.ts:47-65 | an undisturbed create and confirm before the expiry add exactly the row asked for and leave neither lock nor hold |
| BookingServer.CreateOutcome | src/core/booking/application/commands/create-booking.handler.ts:29-118 | the whole state after an undisturbed create: for an acceptable request whose key has no live lock, a lock and a hold until one TTL from now, written out, and nothing else; else no store changes and the run ends in its error |
| BookingServer.ConfirmOutcome | src/core/booking/application/commands/confirm-booking.handler.ts:22-65 | the whole state after an undisturbed confirm: for the owner of a live hold that the constraint accepts, its row added and its hold and lock deleted; else no store changes, and BAD_PARAMS, EXPIRED, FORBIDDEN and SLOT_TAKEN each exactly for its cause |
| BookingServer.EarlyRowWouldBlockConfirm | src/core/booking/application/commands/create-booking.handler.ts:60-68 | had the early insert gone through with the slot's interval, confirm's own insert would be refused |
| PubSub.MatchIsSegmentwise | src/infrastructure/redis/redis-pubsub.adapter.ts:88-101 | match accepts a channel exactly when the pattern is the lone * or both split on dots into as many segments, each * or equal |
| PubSub.SourceParses | src/infrastructure/redis/redis-pubsub.adapter.ts:90-99 | the text handed to RegExp is accepted by the pattern grammar for every pattern, as an anchored list of terms |
| PubSub.BodyMatches | src/infrastructure/redis/redis-pubsub.adapter.ts:91-98 | those terms match a channel exactly segment by segment |
| PubSub.ParseLiteral | src/infrastructure/redis/redis-pubsub.adapter.ts:94-96 | an escaped segment parses to its own characters, whatever they are |
| PubSub.RedisPubSubAdapter.Dispatch | src/infrastructure/redis/redis-pubsub.adapter.ts:46-54 | there is a strictly increasing list of the subscriptions whose patterns mean the channel, all of them, such that the calls are one for each; the log is likewise one entry for each failing call, in order; a failure stops nothing |
| PubSub.EachAcceptingOnce | src/infrastructure/redis/redis-pubsub.adapter.ts:46-54 | that list for the calls, for any subscriptions: a handler subscribed twice is called twice, and one subscribed once at most once |
| PubSub.EachFailureOnce | src/infrastructure/redis/redis-pubsub.adapter.ts:50-52 | and for the log |
| PubSub.RedisPubSubAdapter.Subscribe | src/infrastructure/redis/redis-pubsub.adapter.ts:81-86 | appends one handler |
| PubSub.ServedExactly | src/infrastructure/redis/redis-pubsub.adapter.ts:46-54 | a handler is called on exactly the channels its patterns mean |
| Search.SearchBookings | src/core/booking/infrastructure/repository/booking.repo.ts:24-77 | page 1 if none or a smaller one is given, size 20 if none is given and else between 1 and 100; the total, and as items the asked page of some answer: the rows the scope and filters mean, by descending start, equal starts in any order |
| Search.BuildQuery | src/core/booking/infrastructure/repository/booking.repo.ts:31-56 | the chain of ifs selects exactly the rows the scope and the filters mean |
| Search.SelectionMeans | src/core/booking/infrastructure/repository/booking.repo.ts:31-56 | for every row, written out on its columns and the rooms table: an ADMIN search has it whatever its room, or for one user; a HOST search exactly if the room is there and its owner is the host; a USER search exactly if the user booked it; and the room, from and to filters apply to all; as often as the table has it |
| Search.PageMeans | src/core/booking/infrastructure/repository/booking.repo.ts:60-63 | the k-th item of a page is row (page - 1) * size + k of the answer, and the page has it exactly if k is below size and the row is there |
| Search.OrderByStart | src/core/booking/infrastructure/repository/booking.repo.ts:58 | a permutation of the selected rows by descending start; the order of equal starts is left open |
| Search.PagesPartitionAnswer | src/core/booking/infrastructure/repository/booking.repo.ts:60-64 | pages 1 to ceil(total / size), one after the other, are the whole ordered answer, and none of them is empty |
| Search.OnExactlyOnePage | src/core/booking/infrastructure/repository/booking.repo.ts:62-63 | each position of the answer is on exactly one page |
| Search.RoomSearchIsDetermined | src/core/booking/infrastructure/repository/booking.repo.ts:52-58 | with a room filter the start order is strict in every state of every execution, so answer and pages are unique however the database breaks ties |
| Search.SearchIsDeterminedExactly | src/core/booking/infrastructure/repository/booking.repo.ts:58-64 | in every state of every execution, the pages of a search are the same however the database breaks ties, if and only if no two selected rows start together |
| Search.AnswerDeterminedExactly | src/core/booking/infrastructure/repository/booking.repo.ts:58 | so it is for any duplicate-free selection |
| Search.UserSearchCanRepeatARow | src/core/booking/infrastructure/repository/booking.repo.ts:58-63 | an execution in which a user books two rooms for one start, and pages of his own search that show one booking twice and the other never |
| Search.PagingAcrossStates | src/core/booking/infrastructure/repository/booking.repo.ts:58-64 | pages fetched in different states of one execution, when starts are distinct: of the rows there at the first fetch, going forward skips none, and repeats one if and only if a selected booking has come in ahead of the offset |
| Search.AdminForUserIsUser | src/core/booking/infrastructure/repository/booking.repo.ts:46-54 | an ADMIN search filtered by a user is that user's own search |
| Search.HostsPartitionAdmin | src/core/booking/infrastructure/repository/booking.repo.ts:46-54 | without a user filter, the HOST results of any distinct owners who include all owners of rooms with rows, and the rows of rooms without an owner, make up the ADMIN result, each row once |

## Left out

- The clients and connections of Redis, Postgres, RabbitMQ and TypeORM: only the meaning of keys with expiry, of the insert and of its constraint is kept. All clients share one store, so REDIS_DB is 0.
- HMAC and random values: the signed text stands for the token, and the run that acquires a lock stands for its random value; both are thereby injective and fresh. A row's id is the confirm run that inserted it.
- BookingServer.Server.ReadHold: has no corrupt-hold error, because only create writes holds and a hold is kept as its fields, not as JSON text. Its printed start stands for the instant, which `IsoText.ParseIsoOfIso` and `IsoText.IsoIsInjective` justify.
- Schedule.ScanHolds: takes keys one at a time. With the redis client of package.json the scan yields arrays of keys, so `String(k)` is a batch joined with commas; the get then finds nothing, which for this scan makes no difference.
- Schedule.ScanLocks: takes keys one at a time, likewise; as written a batch is read as its last key (`Keys.BatchReadsAsLast`), and the intended loop goes through the keys of each batch.
- Schedule.DaysOfRoom: has these two scans, key by key.
- Schedule.DailySchedule: has these two scans, key by key.
- Ids.SpellingsDifferWithLetters: does not ask for the version and variant digits that newer versions of the validator fix, so for these it speaks of ids that have them, such as gen_random_uuid() makes.
- PAYMENT_TTL_SEC is a positive number of seconds; expiry is exact to the millisecond.
- The schedule reads the database first and then scans Redis; the model takes one snapshot. The echoed `from` and `to`, the `?? 15` for a missing slot length (the column is NOT NULL) and the HOLD or LOCK mark of a range are not modelled.
- Trailing slashes cut from room ids, and ids that Postgres cannot read: the texts of room ids are those it reads as some uuid.
- `startAt` texts other than a date or a full UTC instant, whose reading ECMA-262 leaves open in part; the protocol takes the parsed instant, None if there is none.
- Calendar.SetUtcDateAddsDays: times are unbounded here, while a Date beyond 8.64e15 milliseconds from the epoch is invalid; a query whose days reach that far is not modelled. Dates outside the years 0 to 9999 are not printed.
- A room's name, and the creation of rooms: any rooms may be there at the start. A room update is one step of the protocol, at its save; the owner never changes. The compiled request class declares its fields and the repository skips undefined ones, which is how an absent slot length stays unwritten.
- What notifications send, the event bus, mail and SMS stubs, identity, guards, DTO validation other than that of room ids, and the HTTP filter.
- Pages and page sizes are integers; NaN and fractions are not modelled. The joined room name is not part of an item.
- PubSub.RedisPubSubAdapter.Dispatch: does not see a handler that subscribes while the message is dispatched; the list is read once per message.
- Regular expressions with groups, alternatives, other quantifiers or class ranges: no pattern is translated into them.
- `src/infrastructure/cache/locker.service.ts`: a second lock that no module uses.
