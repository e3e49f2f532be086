/** Times in milliseconds since the epoch, and the slot-alignment test of a create request.

    `getUTCMinutes`, `getUTCSeconds` and `getUTCMilliseconds` follow section 21.4.1 of
    ECMA-262: they are floored remainders, also before 1970. */
module Slots {

  const MINUTE := 60_000
  const HOUR := 3_600_000
  const DAY := 86_400_000

  function UtcMinutes(t: int): int { (t / MINUTE) % 60 }

  function UtcSeconds(t: int): int { (t / 1000) % 60 }

  function UtcMilliseconds(t: int): int { t % 1000 }

  /** The create handler's test: only the minute within the hour is compared with the slot. */
  predicate Aligned(t: int, slotMin: int)
    requires slotMin > 0
  {
    UtcMinutes(t) % slotMin == 0 && UtcSeconds(t) == 0 && UtcMilliseconds(t) == 0
  }

  function SlotEnd(start: int, slotMin: int): int { start + slotMin * MINUTE }

  /** Half-open intervals [s1, e1) and [s2, e2) have no instant in common. */
  predicate Disjoint(s1: int, e1: int, s2: int, e2: int) { e1 <= s2 || e2 <= s1 }

  /** No two distinct accepted starts give overlapping slots. */
  ghost predicate NeverOverlaps(slotMin: int)
    requires slotMin > 0
  {
    forall s, t :: s != t && Aligned(s, slotMin) && Aligned(t, slotMin)
                   ==> Disjoint(s, SlotEnd(s, slotMin), t, SlotEnd(t, slotMin))
  }

  lemma MultipleHasNoRemainder(q: int, d: int)
    requires d > 0
    ensures (q * d) % d == 0
  {
    QuotientIsUnique(q * d, d, q, 0);
  }

  lemma {:induction false} ProductsKeepOrder(a: int, b: int, d: int)
    requires d > 0 && a <= b
    ensures a * d <= b * d && (a < b ==> a * d + d <= b * d)
    decreases b - a
  {
    if a < b {
      ProductsKeepOrder(a + 1, b, d);
      assert (a + 1) * d == a * d + d;
    }
  }

  lemma QuotientIsUnique(n: int, d: int, q: int, r: int)
    requires d > 0 && n == q * d + r && 0 <= r < d
    ensures n / d == q && n % d == r
  {
    var q', r' := n / d, n % d;
    assert n == q' * d + r';
    if q < q' {
      ProductsKeepOrder(q, q', d);
    } else if q' < q {
      ProductsKeepOrder(q', q, d);
    }
  }

  /** In plain numbers: a whole minute, and its minute within the hour a multiple of the slot. */
  lemma AlignedMeans(t: int, d: int)
    requires d > 0
    ensures Aligned(t, d) <==> t % 60_000 == 0 && t / 60_000 % 60 % d == 0
  {
    WholeMinute(t);
  }

  lemma WholeMinute(t: int)
    ensures t % 60_000 == 0 <==> t / 1000 % 60 == 0 && t % 1000 == 0
  {
    QuotientIsUnique(t, 60_000, t / 1000 / 60, t / 1000 % 60 * 1000 + t % 1000);
  }

  /** A start accepted for a slot length dividing 60 is a whole number of slots after the epoch. */
  lemma AlignedIsMultiple(t: int, d: int) returns (k: int)
    requires d > 0 && 60 % d == 0 && Aligned(t, d)
    ensures t == k * d * MINUTE
  {
    var hours, minutes := t / MINUTE / 60, UtcMinutes(t);
    var perHour, inHour := 60 / d, minutes / d;
    k := hours * perHour + inHour;
    assert t == (hours * 60 + minutes) * MINUTE;
    assert perHour * d == 60 && inHour * d == minutes;
    assert k * d == hours * (perHour * d) + inHour * d;
  }

  lemma AlignedStartsAreApart(s: int, t: int, d: int)
    requires d > 0 && 60 % d == 0 && s != t && Aligned(s, d) && Aligned(t, d)
    ensures Disjoint(s, SlotEnd(s, d), t, SlotEnd(t, d))
  {
    var a := AlignedIsMultiple(s, d);
    var b := AlignedIsMultiple(t, d);
    if a < b {
      ProductsKeepOrder(a, b, d);
    } else if b < a {
      ProductsKeepOrder(b, a, d);
    }
  }

  lemma MinuteIsAligned(minutes: int, d: int, q: int)
    requires d > 0 && minutes % 60 == q * d
    ensures Aligned(minutes * MINUTE, d)
  {
    MultipleHasNoRemainder(q, d);
    assert (minutes * MINUTE) / MINUTE == minutes;
  }

  /** When the slot does not divide the hour, the last accepted start of an hour runs into the
      first start of the next. */
  lemma LastSlotOfHourOverlaps(d: int) returns (s: int)
    requires d > 0 && 60 % d != 0
    ensures 0 <= s < HOUR < SlotEnd(s, d) && s % MINUTE == 0
    ensures Aligned(s, d) && Aligned(HOUR, d)
    ensures Aligned(s + DAY, d) && Aligned(HOUR + DAY, d)
  {
    var q := 60 / d;
    var m := q * d;
    var r := 60 % d;
    assert 60 == m + r && 0 < r < d;
    assert 0 <= m by {
      if q < 0 { ProductsKeepOrder(q, -1, d); } else { ProductsKeepOrder(0, q, d); }
    }
    s := m * MINUTE;
    MinuteIsAligned(m, d, q);
    MinuteIsAligned(m + 24 * 60, d, q);
    MinuteIsAligned(60, d, 0);
    MinuteIsAligned(60 + 24 * 60, d, 0);
  }

  /** The exact condition under which the alignment test keeps slots apart. */
  lemma ExactAlignment(d: int)
    requires d > 0
    ensures NeverOverlaps(d) <==> 60 % d == 0
  {
    if 60 % d == 0 {
      forall s, t | s != t && Aligned(s, d) && Aligned(t, d)
        ensures Disjoint(s, SlotEnd(s, d), t, SlotEnd(t, d))
      {
        AlignedStartsAreApart(s, t, d);
      }
    } else {
      var s := LastSlotOfHourOverlaps(d);
      assert !Disjoint(s, SlotEnd(s, d), HOUR, SlotEnd(HOUR, d));
    }
  }
}
