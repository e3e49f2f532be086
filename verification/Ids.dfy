/** The uuid columns and their canonical text: 32 hexadecimal digits in groups of 8-4-4-4-12. */
module Ids {
  import opened Text

  function Pow16(w: nat): (p: nat)
    ensures p >= 1
  {
    if w == 0 then 1 else 16 * Pow16(w - 1)
  }

  type Uuid = n: nat | n < Pow16(32) witness 0

  function HexDigit(n: nat): (c: char)
    requires n < 16
    ensures '0' <= c <= '9' || 'a' <= c <= 'f'
  {
    if n < 10 then ('0' as int + n) as char else ('a' as int + n - 10) as char
  }

  function HexDigits(n: nat, w: nat): (s: string)
    ensures |s| == w
    ensures forall i :: 0 <= i < w ==> '0' <= s[i] <= '9' || 'a' <= s[i] <= 'f'
  {
    if w == 0 then [] else HexDigits(n / 16, w - 1) + [HexDigit(n % 16)]
  }

  lemma {:induction false} HexDigitsAreInjective(m: nat, n: nat, w: nat)
    requires m < Pow16(w) && n < Pow16(w) && HexDigits(m, w) == HexDigits(n, w)
    ensures m == n
  {
    if w > 0 {
      var s, t := HexDigits(m, w), HexDigits(n, w);
      assert s[w - 1] == HexDigit(m % 16) && t[w - 1] == HexDigit(n % 16);
      assert HexDigits(m / 16, w - 1) == s[..w - 1] && HexDigits(n / 16, w - 1) == t[..w - 1];
      HexDigitsAreInjective(m / 16, n / 16, w - 1);
    }
  }

  function Grouped(h: string): (s: string)
    requires |h| == 32
    ensures |s| == 36
  {
    h[..8] + "-" + h[8..12] + "-" + h[12..16] + "-" + h[16..20] + "-" + h[20..]
  }

  function UuidText(id: Uuid): (s: string)
    ensures |s| == 36
  {
    Grouped(HexDigits(id, 32))
  }

  lemma GroupedIsInjective(g: string, h: string)
    requires |g| == 32 && |h| == 32 && Grouped(g) == Grouped(h)
    ensures g == h
  {
    var s, t := Grouped(g), Grouped(h);
    assert s[..8] == g[..8] && s[9..13] == g[8..12] && s[14..18] == g[12..16];
    assert s[19..23] == g[16..20] && s[24..] == g[20..];
    assert t[..8] == h[..8] && t[9..13] == h[8..12] && t[14..18] == h[12..16];
    assert t[19..23] == h[16..20] && t[24..] == h[20..];
    assert g == g[..8] + g[8..12] + g[12..16] + g[16..20] + g[20..];
    assert h == h[..8] + h[8..12] + h[12..16] + h[16..20] + h[20..];
  }

  lemma UuidTextIsInjective(a: Uuid, b: Uuid)
    requires UuidText(a) == UuidText(b)
    ensures a == b
  {
    GroupedIsInjective(HexDigits(a, 32), HexDigits(b, 32));
    HexDigitsAreInjective(a, b, 32);
  }

  /** The number that hexadecimal digits write. */
  function HexNumber(s: string): int {
    if s == [] then 0
    else
      var c := s[|s| - 1];
      16 * HexNumber(s[..|s| - 1]) + if c <= '9' then c as int - '0' as int else c as int - 'a' as int + 10
  }

  lemma {:induction false} HexDigitsWriteNumber(n: nat, w: nat)
    requires n < Pow16(w)
    ensures HexNumber(HexDigits(n, w)) == n
  {
    if w > 0 {
      HexDigitsWriteNumber(n / 16, w - 1);
      assert HexDigits(n, w)[..w - 1] == HexDigits(n / 16, w - 1);
    }
  }

  lemma FourHyphens(a: string, b: string, c: string, d: string, e: string)
    requires '-' !in a && '-' !in b && '-' !in c && '-' !in d && '-' !in e
    ensures Split(a + "-" + b + "-" + c + "-" + d + "-" + e, '-') == [a, b, c, d, e]
  {
    SplitAround(a + "-" + b + "-" + c + "-" + d, '-', e);
    SplitAround(a + "-" + b + "-" + c, '-', d);
    SplitAround(a + "-" + b, '-', c);
    SplitHead(a, '-', b);
    SplitWhole(b, '-');
    SplitWhole(c, '-');
    SplitWhole(d, '-');
    SplitWhole(e, '-');
  }

  lemma GroupsBetweenHyphens(h: string)
    requires |h| == 32 && '-' !in h
    ensures Split(Grouped(h), '-') == [h[..8], h[8..12], h[12..16], h[16..20], h[20..32]]
  {
    assert h[20..] == h[20..32];
    FourHyphens(h[..8], h[8..12], h[12..16], h[16..20], h[20..32]);
  }

  /** The text of a uuid is its number in hexadecimal digits, in groups of 8, 4, 4, 4 and 12. */
  lemma UuidTextMeans(id: Uuid, h: string)
    requires h == HexDigits(id, 32)
    ensures Split(UuidText(id), '-') == [h[..8], h[8..12], h[12..16], h[16..20], h[20..32]]
    ensures |h| == 32 && HexNumber(h) == id
  {
    HexDigitsWriteNumber(id, 32);
    assert '-' !in h;
    GroupsBetweenHyphens(h);
  }

  // ----- Room ids as clients send them -----

  function LowerHex(c: char): char { if 'A' <= c <= 'F' then (c as int + 32) as char else c }

  function UpperHex(c: char): char { if 'a' <= c <= 'f' then (c as int - 32) as char else c }

  /** The digits that Postgres reads in the text of a uuid: in either case, hyphens and braces aside. */
  function DigitsOf(text: string): string {
    if text == [] then []
    else if text[0] in "-{}" then DigitsOf(text[1..])
    else [LowerHex(text[0])] + DigitsOf(text[1..])
  }

  /** A room id as a client sends it: the text, and the uuid that Postgres reads it as. The table finds
      the room by its uuid; keys and tokens are made of the text. */
  datatype RoomText = RoomText(id: Uuid, text: string)

  predicate Reads(r: RoomText) { DigitsOf(r.text) == HexDigits(r.id, 32) }

  /** The id as the table prints it, and the same in capitals. */
  function Canonical(id: Uuid): RoomText { RoomText(id, UuidText(id)) }

  function Capitals(id: Uuid): RoomText { RoomText(id, Grouped(Uppercase(HexDigits(id, 32)))) }

  function Uppercase(h: string): (u: string)
    ensures |u| == |h| && forall i :: 0 <= i < |h| ==> u[i] == UpperHex(h[i])
  {
    if h == [] then [] else [UpperHex(h[0])] + Uppercase(h[1..])
  }

  predicate HexChar(c: char) { '0' <= c <= '9' || 'a' <= c <= 'f' || 'A' <= c <= 'F' }

  /** What `@IsUUID()` lets through: five groups of hexadecimal digits, in either case. Newer versions of
      the validator also fix the digits of version and variant, which the case does not touch. */
  ghost predicate IsUuid(text: string) { exists h: string :: |h| == 32 && AllHex(h) && text == Grouped(h) }

  predicate AllHex(h: string) { forall i :: 0 <= i < |h| ==> HexChar(h[i]) }

  lemma {:induction false} DigitsOfConcat(a: string, b: string)
    ensures DigitsOf(a + b) == DigitsOf(a) + DigitsOf(b)
  {
    if a == [] {
      assert a + b == b;
    } else {
      assert (a + b)[1..] == a[1..] + b;
      DigitsOfConcat(a[1..], b);
    }
  }

  lemma HyphenIsNoDigit(a: string, b: string)
    ensures DigitsOf(a + "-" + b) == DigitsOf(a) + DigitsOf(b)
  {
    DigitsOfConcat(a + "-", b);
    DigitsOfConcat(a, "-");
    assert DigitsOf("-") == [];
  }

  lemma DigitsOfGrouped(h: string)
    requires |h| == 32
    ensures DigitsOf(Grouped(h)) == DigitsOf(h)
  {
    HyphenIsNoDigit(h[..8], h[8..12]);
    HyphenIsNoDigit(h[..8] + "-" + h[8..12], h[12..16]);
    HyphenIsNoDigit(h[..8] + "-" + h[8..12] + "-" + h[12..16], h[16..20]);
    HyphenIsNoDigit(h[..8] + "-" + h[8..12] + "-" + h[12..16] + "-" + h[16..20], h[20..]);
    FiveParts(h);
  }

  lemma FiveParts(h: string)
    requires |h| == 32
    ensures DigitsOf(h)
            == DigitsOf(h[..8]) + DigitsOf(h[8..12]) + DigitsOf(h[12..16]) + DigitsOf(h[16..20]) + DigitsOf(h[20..])
  {
    CutDigits(h, 20);
    CutDigits(h[..20], 16);
    CutDigits(h[..16], 12);
    CutDigits(h[..12], 8);
    assert h[..20][..16] == h[..16] && h[..20][16..] == h[16..20];
    assert h[..16][..12] == h[..12] && h[..16][12..] == h[12..16];
    assert h[..12][..8] == h[..8] && h[..12][8..] == h[8..12];
  }

  lemma CutDigits(h: string, i: nat)
    requires i <= |h|
    ensures DigitsOf(h) == DigitsOf(h[..i]) + DigitsOf(h[i..])
  {
    assert h == h[..i] + h[i..];
    DigitsOfConcat(h[..i], h[i..]);
  }

  /** Of hexadecimal digits, the case is all that Postgres ignores. */
  lemma {:induction false} DigitsOfHex(h: string)
    requires AllHex(h)
    ensures |DigitsOf(h)| == |h| && forall i :: 0 <= i < |h| ==> DigitsOf(h)[i] == LowerHex(h[i])
  {
    if h != [] {
      DigitsOfHex(h[1..]);
    }
  }

  lemma ReadsWhen(id: Uuid, h: string)
    requires |h| == 32 && AllHex(h)
    ensures Reads(RoomText(id, Grouped(h))) <==> forall i :: 0 <= i < 32 ==> LowerHex(h[i]) == HexDigits(id, 32)[i]
  {
    DigitsOfGrouped(h);
    DigitsOfHex(h);
    if forall i :: 0 <= i < 32 ==> LowerHex(h[i]) == HexDigits(id, 32)[i] {
      assert DigitsOf(h) == HexDigits(id, 32);
    }
  }

  lemma BracesAside(h: string)
    ensures DigitsOf("{" + h + "}") == DigitsOf(h)
  {
    DigitsOfConcat("{" + h, "}");
    DigitsOfConcat("{", h);
    assert DigitsOf("{") == [] && DigitsOf("}") == [];
  }

  /** Postgres reads a uuid in braces as the same. */
  lemma BracedReads(r: RoomText)
    ensures Reads(RoomText(r.id, "{" + r.text + "}")) <==> Reads(r)
  {
    BracesAside(r.text);
  }

  /** Both spellings pass the validation and are read as the same room. */
  lemma BothSpellingsRead(id: Uuid)
    ensures Reads(Canonical(id)) && IsUuid(Canonical(id).text)
    ensures Reads(Capitals(id)) && IsUuid(Capitals(id).text)
  {
    var h := HexDigits(id, 32);
    EitherCaseIsHex(h);
    SpellingReads(id, h);
    SpellingReads(id, Uppercase(h));
  }

  lemma EitherCase(c: char)
    requires '0' <= c <= '9' || 'a' <= c <= 'f'
    ensures HexChar(c) && LowerHex(c) == c && HexChar(UpperHex(c)) && LowerHex(UpperHex(c)) == c
  {
  }

  lemma EitherCaseIsHex(h: string)
    requires forall i :: 0 <= i < |h| ==> '0' <= h[i] <= '9' || 'a' <= h[i] <= 'f'
    ensures AllHex(h) && forall i :: 0 <= i < |h| ==> LowerHex(h[i]) == h[i]
    ensures AllHex(Uppercase(h)) && forall i :: 0 <= i < |h| ==> LowerHex(Uppercase(h)[i]) == h[i]
  {
    var u := Uppercase(h);
    forall i | 0 <= i < |h|
      ensures HexChar(h[i]) && LowerHex(h[i]) == h[i] && HexChar(u[i]) && LowerHex(u[i]) == h[i]
    {
      EitherCase(h[i]);
    }
  }

  lemma SpellingReads(id: Uuid, h: string)
    requires |h| == 32 && AllHex(h) && forall i :: 0 <= i < 32 ==> LowerHex(h[i]) == HexDigits(id, 32)[i]
    ensures Reads(RoomText(id, Grouped(h))) && IsUuid(Grouped(h))
  {
    ReadsWhen(id, h);
  }

  predicate HasLetter(id: Uuid) { exists i :: 0 <= i < 32 && 'a' <= HexDigits(id, 32)[i] <= 'f' }

  lemma LetterHasCapital(h: string, i: nat)
    requires i < |h| == 32 && 'a' <= h[i] <= 'f'
    ensures Grouped(Uppercase(h)) != Grouped(h)
  {
    assert Uppercase(h)[i] == UpperHex(h[i]) != h[i];
    if Grouped(Uppercase(h)) == Grouped(h) {
      GroupedIsInjective(Uppercase(h), h);
    }
  }

  lemma OnlyDigitsOneSpelling(id: Uuid, h: string)
    requires !HasLetter(id) && |h| == 32 && AllHex(h) && Reads(RoomText(id, Grouped(h)))
    ensures h == HexDigits(id, 32)
  {
    ReadsWhen(id, h);
    var d := HexDigits(id, 32);
    forall i | 0 <= i < 32 ensures h[i] == d[i] {
      assert LowerHex(h[i]) == d[i];
    }
  }

  /** A room has more than one spelling that passes the validation if and only if its id has a letter. */
  lemma SpellingsDifferWithLetters(id: Uuid)
    ensures Capitals(id) != Canonical(id) <==> HasLetter(id)
    ensures (exists r: RoomText :: r.id == id && IsUuid(r.text) && Reads(r) && r != Canonical(id)) <==> HasLetter(id)
  {
    BothSpellingsRead(id);
    if HasLetter(id) {
      var i :| 0 <= i < 32 && 'a' <= HexDigits(id, 32)[i] <= 'f';
      LetterHasCapital(HexDigits(id, 32), i);
    } else {
      forall r: RoomText | r.id == id && IsUuid(r.text) && Reads(r) ensures r == Canonical(id) {
        var h: string :| |h| == 32 && AllHex(h) && r.text == Grouped(h);
        OnlyDigitsOneSpelling(id, h);
      }
    }
  }

  /** A text that Postgres reads as a uuid contains none of the separators of keys and tokens. */
  lemma {:induction false} CharsRead(text: string)
    ensures forall c :: c in text ==> c in "-{}" || LowerHex(c) in DigitsOf(text)
  {
    if text != [] {
      CharsRead(text[1..]);
    }
  }

  lemma RoomTextHasNoSeparator(r: RoomText)
    requires Reads(r)
    ensures ':' !in r.text && '|' !in r.text
  {
    CharsRead(r.text);
  }

  /** The text determines the uuid. */
  lemma SameTextSameRoom(a: RoomText, b: RoomText)
    requires Reads(a) && Reads(b) && a.text == b.text
    ensures a == b
  {
    HexDigitsAreInjective(a.id, b.id, 32);
  }
}
