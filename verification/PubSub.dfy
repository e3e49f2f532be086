/** Channel patterns of the pub/sub adapter, and its dispatch of messages. */
module PubSub {
  import opened Text
  import opened Regex

  // ----- The translation -----

  /** `p.replace(/[.*+?^${}()|[\]\\]/g, '\\$&')` */
  function Escape(p: string): string { if p == [] then [] else EscapeChar(p[0]) + Escape(p[1..]) }

  function EscapeChar(c: char): string { if c in ".*+?^${}()|[]\\" then ['\\', c] else [c] }

  function SegmentSource(p: string): string { if p == "*" then "[^.]*" else Escape(p) }

  /** The translated segments, joined with `\.` */
  function BodySource(parts: seq<string>): string
    requires |parts| > 0
  {
    if |parts| == 1 then SegmentSource(parts[0]) else SegmentSource(parts[0]) + "\\." + BodySource(parts[1..])
  }

  /** The text handed to RegExp. */
  function RegexSource(pattern: string): string { "^" + BodySource(Split(pattern, '.')) + "$" }

  /** `match` */
  predicate Match(pattern: string, channel: string) {
    if pattern == "*" then true
    else
      match Parse(RegexSource(pattern))
      case Some(terms) => Test(terms, channel)
      case None => false
  }

  // ----- What a pattern means -----

  predicate SegmentMatches(p: string, segment: string) { p == "*" || p == segment }

  /** As many segments, each `*` or equal. */
  predicate SegmentsMatch(parts: seq<string>, segments: seq<string>) {
    |parts| == |segments| && forall i :: 0 <= i < |parts| ==> SegmentMatches(parts[i], segments[i])
  }

  // ----- The text parses to these terms -----

  function Literal(p: string): seq<Term> {
    if p == [] then [] else [One(OneOf([p[0]]))] + Literal(p[1..])
  }

  const NOT_DOT := NoneOf(".")

  const DOT := One(OneOf("."))

  function SegmentTerms(p: string): seq<Term> { if p == "*" then [Star(NOT_DOT)] else Literal(p) }

  function BodyTerms(parts: seq<string>): seq<Term>
    requires |parts| > 0
  {
    if |parts| == 1 then SegmentTerms(parts[0]) else SegmentTerms(parts[0]) + ([DOT] + BodyTerms(parts[1..]))
  }

  predicate NoStarAhead(text: string) { text == [] || text[0] != '*' }

  lemma EscapeStartsNoStar(p: string, rest: string)
    requires NoStarAhead(rest)
    ensures NoStarAhead(Escape(p) + rest)
  {
    if p == [] {
      assert Escape(p) + rest == rest;
    }
  }

  lemma ParseOneChar(c: char, rest: string)
    requires NoStarAhead(rest)
    ensures Parse(EscapeChar(c) + rest) == Prepend([One(OneOf([c]))], Parse(rest))
  {
    var text := EscapeChar(c) + rest;
    if IsSyntax(c) {
      assert text == ['\\', c] + rest;
      assert text[2..] == rest;
    } else {
      assert text == [c] + rest;
      assert text[1..] == rest;
    }
  }

  lemma EscapeHead(p: string, rest: string)
    requires p != []
    ensures EscapeChar(p[0]) + (Escape(p[1..]) + rest) == Escape(p) + rest
  {
    assert Escape(p) == EscapeChar(p[0]) + Escape(p[1..]);
  }

  lemma {:induction false} ParseLiteral(p: string, rest: string)
    requires NoStarAhead(rest)
    ensures Parse(Escape(p) + rest) == Prepend(Literal(p), Parse(rest))
  {
    if p == [] {
      assert Escape(p) + rest == rest;
      assert Parse(rest).Some? ==> [] + Parse(rest).value == Parse(rest).value;
    } else {
      ParseLiteral(p[1..], rest);
      EscapeStartsNoStar(p[1..], rest);
      ParseOneChar(p[0], Escape(p[1..]) + rest);
      EscapeHead(p, rest);
      PrependTwice([One(OneOf([p[0]]))], Literal(p[1..]), Parse(rest));
    }
  }

  lemma PrependTwice(a: seq<Term>, b: seq<Term>, rest: Option<seq<Term>>)
    ensures Prepend(a, Prepend(b, rest)) == Prepend(a + b, rest)
  {
    if rest.Some? {
      assert a + (b + rest.value) == a + b + rest.value;
    }
  }

  lemma ParseWildcard(rest: string)
    ensures Parse("[^.]*" + rest) == Prepend([Star(NOT_DOT)], Parse(rest))
  {
    var text := "[^.]*" + rest;
    assert text[0] == '[' && text[1] == '^' && text[2] == '.' && text[3] == ']' && text[4] == '*';
    assert ClassEnd(text, 3) == Some(3);
    assert ClassEnd(text, 2) == Some(3);
    assert text[2..3] == ".";
    assert text[5..] == rest;
  }

  lemma ParseSegment(p: string, rest: string)
    requires NoStarAhead(rest)
    ensures Parse(SegmentSource(p) + rest) == Prepend(SegmentTerms(p), Parse(rest))
    ensures NoStarAhead(SegmentSource(p) + rest)
  {
    if p == "*" {
      ParseWildcard(rest);
    } else {
      ParseLiteral(p, rest);
      EscapeStartsNoStar(p, rest);
    }
  }

  lemma ParseDot(rest: string)
    requires NoStarAhead(rest)
    ensures Parse("\\." + rest) == Prepend([DOT], Parse(rest))
  {
    var text := "\\." + rest;
    assert text[0] == '\\' && text[1] == '.' && text[2..] == rest;
  }

  lemma FourTexts(a: string, b: string, c: string, d: string)
    ensures a + b + c + d == a + (b + (c + d))
  {
  }

  lemma FourTermLists(a: seq<Term>, b: seq<Term>, c: seq<Term>, d: seq<Term>)
    ensures a + (b + c) + d == a + (b + (c + d))
  {
  }

  lemma {:induction false} ParseBody(parts: seq<string>)
    requires |parts| > 0
    ensures Parse(BodySource(parts) + "$") == Some(BodyTerms(parts) + [End])
    ensures NoStarAhead(BodySource(parts) + "$")
  {
    assert Parse("$") == Some([End]) by {
      var text := "$";
      assert text[0] == '$' && text[1..] == [];
      assert Parse(text) == Prepend([End], Parse(text[1..]));
      assert [End] + [] == [End];
    }
    if |parts| == 1 {
      ParseSegment(parts[0], "$");
    } else {
      var rest := BodySource(parts[1..]) + "$";
      ParseBody(parts[1..]);
      ParseDot(rest);
      ParseSegment(parts[0], "\\." + rest);
      FourTexts(SegmentSource(parts[0]), "\\.", BodySource(parts[1..]), "$");
      FourTermLists(SegmentTerms(parts[0]), [DOT], BodyTerms(parts[1..]), [End]);
    }
  }

  /** RegExp accepts the text of every pattern, as these terms. */
  lemma SourceParses(pattern: string)
    ensures Parse(RegexSource(pattern)) == Some([Start] + (BodyTerms(Split(pattern, '.')) + [End]))
  {
    var body := BodySource(Split(pattern, '.')) + "$";
    ParseBody(Split(pattern, '.'));
    assert RegexSource(pattern) == "^" + body;
    assert ("^" + body)[1..] == body;
  }

  // ----- The terms match segment by segment -----

  predicate NoStart(terms: seq<Term>) { Start !in terms }

  /** Without a start anchor the position does not matter. */
  lemma {:induction false} PositionFree(terms: seq<Term>, s: string)
    requires NoStart(terms)
    ensures Matches(terms, s, true) == Matches(terms, s, false)
    decreases |terms|, |s|
  {
    if terms != [] {
      assert terms[0] != Start && NoStart(terms[1..]);
      PositionFree(terms[1..], s);
    }
  }

  lemma {:induction false} LiteralMatches(p: string, rest: seq<Term>, s: string)
    requires NoStart(rest)
    ensures Matches(Literal(p) + rest, s, false) <==> StartsWith(s, p) && Matches(rest, s[|p|..], false)
  {
    if p == [] {
      assert Literal(p) + rest == rest && s[0..] == s;
    } else {
      var terms := Literal(p) + rest;
      assert terms[0] == One(OneOf([p[0]])) && terms[1..] == Literal(p[1..]) + rest;
      if s != [] {
        LiteralMatches(p[1..], rest, s[1..]);
        assert StartsWith(s, p) ==> s[0] == p[0] && s[1..][..|p| - 1] == p[1..] by {
          if StartsWith(s, p) { assert s[0] == s[..|p|][0]; assert s[1..|p|] == s[..|p|][1..]; }
        }
        assert s[0] == p[0] && StartsWith(s[1..], p[1..]) ==> s[..|p|] == [p[0]] + p[1..];
        if |p| <= |s| {
          assert s[1..][|p| - 1..] == s[|p|..];
        }
      }
    }
  }

  /** The rest of the body matches only at a dot or at the end. */
  predicate Stops(s: string) { s == [] || s[0] == '.' }

  lemma {:induction false} StarMatches(rest: seq<Term>, s: string)
    requires NoStart(rest) && forall t :: Matches(rest, t, false) ==> Stops(t)
    ensures |Split(s, '.')[0]| <= |s|
    ensures Matches([Star(NOT_DOT)] + rest, s, false) <==> Matches(rest, s[|Split(s, '.')[0]|..], false)
    decreases |s|
  {
    var terms := [Star(NOT_DOT)] + rest;
    assert terms[1..] == rest;
    if s == [] {
      assert s[0..] == s;
    } else {
      StarMatches(rest, s[1..]);
      if s[0] == '.' {
        assert s[0..] == s;
      } else {
        var n := |Split(s[1..], '.')[0]|;
        assert s[1..][n..] == s[n + 1..];
      }
    }
  }

  /** The text after the first segment: empty, or a dot and the other segments. */
  lemma {:induction false} AfterFirstSegment(s: string)
    ensures var head := Split(s, '.')[0];
            && StartsWith(s, head) && '.' !in head && Stops(s[|head|..])
            && (s[|head|..] == [] ==> Split(s, '.') == [head])
            && (s[|head|..] != [] ==> Split(s, '.') == [head] + Split(s[|head| + 1..], '.'))
  {
    if s != [] {
      AfterFirstSegment(s[1..]);
      var head := Split(s[1..], '.')[0];
      if s[0] == '.' {
        assert s[0..] == s;
      } else {
        assert s[1..][|head|..] == s[|head| + 1..];
        if s[|head| + 1..] != [] {
          assert s[1..][|head| + 1..] == s[|head| + 2..];
        }
        assert s[..|head| + 1] == [s[0]] + s[1..][..|head|];
      }
    }
  }

  lemma PrefixChars(s: string, p: string)
    requires StartsWith(s, p)
    ensures forall i :: 0 <= i < |p| ==> s[i] == p[i]
  {
    assert forall i :: 0 <= i < |p| ==> s[i] == s[..|p|][i];
  }

  /** A dot-free literal that ends at a stop is the whole first segment. */
  lemma LiteralIsFirstSegment(p: string, s: string)
    requires '.' !in p
    ensures StartsWith(s, p) && Stops(s[|p|..]) <==> p == Split(s, '.')[0]
  {
    AfterFirstSegment(s);
    var head := Split(s, '.')[0];
    PrefixChars(s, head);
    if StartsWith(s, p) {
      PrefixChars(s, p);
      assert s[..|head|] == head && s[..|p|] == p;
    }
  }

  /** One segment of the pattern, before terms that match only at a stop. */
  lemma SegmentTermsMatch(p: string, rest: seq<Term>, s: string)
    requires '.' !in p && NoStart(rest) && forall t :: Matches(rest, t, false) ==> Stops(t)
    ensures var head := Split(s, '.')[0];
            |head| <= |s| &&
            (Matches(SegmentTerms(p) + rest, s, false)
             <==> SegmentMatches(p, head) && Matches(rest, s[|head|..], false))
  {
    AfterFirstSegment(s);
    if p == "*" {
      StarMatches(rest, s);
    } else {
      LiteralMatches(p, rest, s);
      LiteralIsFirstSegment(p, s);
    }
  }

  lemma {:induction false} LiteralHasNoStart(p: string)
    ensures NoStart(Literal(p))
  {
    if p != [] {
      LiteralHasNoStart(p[1..]);
    }
  }

  lemma {:induction false} BodyHasNoStart(parts: seq<string>)
    requires |parts| > 0
    ensures NoStart(BodyTerms(parts))
  {
    LiteralHasNoStart(parts[0]);
    if |parts| > 1 {
      BodyHasNoStart(parts[1..]);
    }
  }

  lemma DotThenMatches(rest: seq<Term>, t: string)
    ensures Matches([DOT] + rest, t, false) <==> t != [] && t[0] == '.' && Matches(rest, t[1..], false)
  {
    assert ([DOT] + rest)[1..] == rest;
  }

  lemma EndMatches(t: string)
    ensures Matches([End], t, false) <==> t == []
  {
    assert [End][1..] == [];
  }

  lemma SegmentsMatchCons(p: string, parts: seq<string>, head: string, segments: seq<string>)
    ensures SegmentsMatch([p] + parts, [head] + segments) <==> SegmentMatches(p, head) && SegmentsMatch(parts, segments)
  {
    var a, b := [p] + parts, [head] + segments;
    if SegmentsMatch(a, b) {
      assert SegmentMatches(a[0], b[0]);
      forall i | 0 <= i < |parts| ensures SegmentMatches(parts[i], segments[i]) {
        assert SegmentMatches(a[i + 1], b[i + 1]);
      }
    }
  }

  /** One segment, a dot, and the other segments' terms. */
  lemma HeadThenOthers(p: string, others: seq<Term>, s: string)
    requires '.' !in p && NoStart(others)
    ensures var head := Split(s, '.')[0];
            |head| <= |s| &&
            (Matches(SegmentTerms(p) + ([DOT] + others), s, false) <==>
             && SegmentMatches(p, head) && s[|head|..] != [] && Matches(others, s[|head| + 1..], false))
  {
    var rest := [DOT] + others;
    AfterFirstSegment(s);
    forall u ensures Matches(rest, u, false) <==> u != [] && u[0] == '.' && Matches(others, u[1..], false) {
      DotThenMatches(others, u);
    }
    SegmentTermsMatch(p, rest, s);
    var head := Split(s, '.')[0];
    if s[|head|..] != [] {
      assert s[|head|..][1..] == s[|head| + 1..];
    }
  }

  lemma {:induction false} BodyMatches(parts: seq<string>, s: string)
    requires |parts| > 0 && forall i :: 0 <= i < |parts| ==> '.' !in parts[i]
    ensures Matches(BodyTerms(parts) + [End], s, false) <==> SegmentsMatch(parts, Split(s, '.'))
  {
    AfterFirstSegment(s);
    var head := Split(s, '.')[0];
    var t := s[|head|..];
    if |parts| == 1 {
      forall t ensures Matches([End], t, false) <==> t == [] { EndMatches(t); }
      SegmentTermsMatch(parts[0], [End], s);
      LastSegment(parts, s);
    } else {
      var others := BodyTerms(parts[1..]) + [End];
      BodyHasNoStart(parts[1..]);
      HeadThenOthers(parts[0], others, s);
      FourTermLists(SegmentTerms(parts[0]), [DOT], BodyTerms(parts[1..]), [End]);
      assert parts == [parts[0]] + parts[1..];
      if t != [] {
        BodyMatches(parts[1..], s[|head| + 1..]);
        SegmentsMatchCons(parts[0], parts[1..], head, Split(s[|head| + 1..], '.'));
      }
    }
  }

  lemma LastSegment(parts: seq<string>, s: string)
    requires |parts| == 1
    ensures var head := Split(s, '.')[0];
            |head| <= |s|
            && (SegmentsMatch(parts, Split(s, '.')) <==> SegmentMatches(parts[0], head) && s[|head|..] == [])
  {
    AfterFirstSegment(s);
  }

  /** The regular expression accepts exactly the channels that agree with the pattern segment by
      segment; the lone `*` accepts every channel. */
  lemma MatchIsSegmentwise(pattern: string, channel: string)
    ensures Match(pattern, channel) <==> pattern == "*" || SegmentsMatch(Split(pattern, '.'), Split(channel, '.'))
  {
    if pattern != "*" {
      var parts := Split(pattern, '.');
      var body := BodyTerms(parts) + [End];
      var terms := [Start] + body;
      SourceParses(pattern);
      PartsAreFreeOfSeparator(pattern, '.');
      BodyMatches(parts, channel);
      BodyHasNoStart(parts);
      PositionFree(body, channel);
      AnchoredTest(body, channel);
    }
  }

  /** A leading start anchor leaves one position to try. */
  lemma AnchoredTest(body: seq<Term>, s: string)
    ensures Test([Start] + body, s) <==> Matches(body, s, true)
  {
    var terms := [Start] + body;
    assert terms[1..] == body && s[0..] == s;
    forall i | 0 <= i <= |s| ensures Matches(terms, s[i..], i == 0) <==> i == 0 && Matches(body, s, true) {
    }
    if Matches(body, s, true) {
      assert Matches(terms, s[0..], 0 == 0);
    }
  }

  // ----- Subscriptions and dispatch -----

  datatype Handler = Handler(pattern: string, fn: nat)

  /** The functions of the handlers whose pattern accepts the channel, in order of subscription. */
  function Accepting(handlers: seq<Handler>, channel: string): (fns: seq<nat>) {
    if handlers == [] then []
    else
      var h := handlers[|handlers| - 1];
      Accepting(handlers[..|handlers| - 1], channel) + if Match(h.pattern, channel) then [h.fn] else []
  }

  function Failing(fns: seq<nat>, fails: nat -> bool): seq<nat> {
    if fns == [] then []
    else Failing(fns[..|fns| - 1], fails) + if fails(fns[|fns| - 1]) then [fns[|fns| - 1]] else []
  }

  /** What a pattern means for a channel. */
  predicate Meets(pattern: string, channel: string) {
    pattern == "*" || SegmentsMatch(Split(pattern, '.'), Split(channel, '.'))
  }

  /** `idx` lists the subscriptions whose pattern meets the channel, each once and in order, and `called` is
      one call for each. */
  ghost predicate CallsAt(handlers: seq<Handler>, channel: string, called: seq<nat>, idx: seq<nat>) {
    && |called| == |idx|
    && (forall j, k :: 0 <= j < k < |idx| ==> idx[j] < idx[k])
    && (forall k :: 0 <= k < |idx| ==> idx[k] < |handlers| && called[k] == handlers[idx[k]].fn)
    && (forall i :: 0 <= i < |handlers| ==> (i in idx <==> Meets(handlers[i].pattern, channel)))
  }

  /** `idx` lists the calls that failed, each once and in order, and `logged` is one entry for each. */
  ghost predicate FailsAt(called: seq<nat>, fails: nat -> bool, logged: seq<nat>, idx: seq<nat>) {
    && |logged| == |idx|
    && (forall j, k :: 0 <= j < k < |idx| ==> idx[j] < idx[k])
    && (forall k :: 0 <= k < |idx| ==> idx[k] < |called| && logged[k] == called[idx[k]])
    && (forall i :: 0 <= i < |called| ==> (i in idx <==> fails(called[i])))
  }

  lemma OneMoreCalled(handlers: seq<Handler>, channel: string, called: seq<nat>, idx: seq<nat>, h: Handler)
    requires CallsAt(handlers, channel, called, idx) && Meets(h.pattern, channel)
    ensures CallsAt(handlers + [h], channel, called + [h.fn], idx + [|handlers|])
  {
    var more, places := handlers + [h], idx + [|handlers|];
    forall i | 0 <= i < |more| ensures i in places <==> Meets(more[i].pattern, channel) {
      assert i in places <==> i in idx || i == |handlers|;
      if i < |handlers| {
        assert more[i] == handlers[i];
      }
    }
  }

  lemma OneMoreLeftOut(handlers: seq<Handler>, channel: string, called: seq<nat>, idx: seq<nat>, h: Handler)
    requires CallsAt(handlers, channel, called, idx) && !Meets(h.pattern, channel)
    ensures CallsAt(handlers + [h], channel, called, idx)
  {
    var more := handlers + [h];
    assert |handlers| !in idx;
    forall i | 0 <= i < |more| ensures i in idx <==> Meets(more[i].pattern, channel) {
      if i < |handlers| {
        assert more[i] == handlers[i];
      }
    }
  }

  lemma {:induction false} EachAcceptingOnce(handlers: seq<Handler>, channel: string) returns (idx: seq<nat>)
    ensures CallsAt(handlers, channel, Accepting(handlers, channel), idx)
  {
    idx := [];
    if handlers != [] {
      var rest, h := handlers[..|handlers| - 1], handlers[|handlers| - 1];
      assert handlers == rest + [h];
      idx := EachAcceptingOnce(rest, channel);
      MatchIsSegmentwise(h.pattern, channel);
      if Meets(h.pattern, channel) {
        OneMoreCalled(rest, channel, Accepting(rest, channel), idx, h);
        idx := idx + [|rest|];
      } else {
        OneMoreLeftOut(rest, channel, Accepting(rest, channel), idx, h);
      }
    }
  }

  lemma OneMoreFailed(called: seq<nat>, fails: nat -> bool, logged: seq<nat>, idx: seq<nat>, fn: nat)
    requires FailsAt(called, fails, logged, idx) && fails(fn)
    ensures FailsAt(called + [fn], fails, logged + [fn], idx + [|called|])
  {
    var more, places := called + [fn], idx + [|called|];
    forall i | 0 <= i < |more| ensures i in places <==> fails(more[i]) {
      assert i in places <==> i in idx || i == |called|;
      if i < |called| {
        assert more[i] == called[i];
      }
    }
  }

  lemma OneMoreReturned(called: seq<nat>, fails: nat -> bool, logged: seq<nat>, idx: seq<nat>, fn: nat)
    requires FailsAt(called, fails, logged, idx) && !fails(fn)
    ensures FailsAt(called + [fn], fails, logged, idx)
  {
    var more := called + [fn];
    assert |called| !in idx;
    forall i | 0 <= i < |more| ensures i in idx <==> fails(more[i]) {
      if i < |called| {
        assert more[i] == called[i];
      }
    }
  }

  lemma {:induction false} EachFailureOnce(called: seq<nat>, fails: nat -> bool) returns (idx: seq<nat>)
    ensures FailsAt(called, fails, Failing(called, fails), idx)
  {
    idx := [];
    if called != [] {
      var rest, fn := called[..|called| - 1], called[|called| - 1];
      assert called == rest + [fn];
      idx := EachFailureOnce(rest, fails);
      if fails(fn) {
        OneMoreFailed(rest, fails, Failing(rest, fails), idx, fn);
        idx := idx + [|rest|];
      } else {
        OneMoreReturned(rest, fails, Failing(rest, fails), idx, fn);
      }
    }
  }

  /** `handlers` is read once per message; a handler either returns or throws (`fails`). */
  class RedisPubSubAdapter {
    var handlers: seq<Handler>

    constructor ()
      ensures handlers == []
    {
      handlers := [];
    }

    method Subscribe(pattern: string, fn: nat)
      modifies this
      ensures handlers == old(handlers) + [Handler(pattern, fn)]
    {
      handlers := handlers + [Handler(pattern, fn)];
    }

    /** Every accepting handler is called once, in order, and a failure is logged and stops nothing. */
    method Dispatch(channel: string, fails: nat -> bool) returns (called: seq<nat>, logged: seq<nat>)
      ensures called == Accepting(handlers, channel)
      ensures logged == Failing(called, fails)
      ensures exists idx :: CallsAt(handlers, channel, called, idx)
      ensures exists idx :: FailsAt(called, fails, logged, idx)
    {
      called, logged := [], [];
      for i := 0 to |handlers|
        invariant called == Accepting(handlers[..i], channel) && logged == Failing(called, fails)
      {
        var h := handlers[i];
        assert handlers[..i + 1][..i] == handlers[..i];
        if Match(h.pattern, channel) {
          var before := called;
          called := called + [h.fn];
          assert called[..|called| - 1] == before;
          if fails(h.fn) {
            logged := logged + [h.fn];
          }
        }
      }
      assert handlers[..|handlers|] == handlers;
      var calls := EachAcceptingOnce(handlers, channel);
      var failures := EachFailureOnce(called, fails);
    }
  }

  /** A subscription is served exactly on the channels its pattern means, whoever else subscribed. */
  lemma {:induction false} ServedExactly(handlers: seq<Handler>, channel: string, fn: nat)
    ensures fn in Accepting(handlers, channel) <==>
            exists i :: 0 <= i < |handlers| && handlers[i].fn == fn &&
                        (handlers[i].pattern == "*"
                         || SegmentsMatch(Split(handlers[i].pattern, '.'), Split(channel, '.')))
  {
    if handlers != [] {
      var n := |handlers| - 1;
      ServedExactly(handlers[..n], channel, fn);
      MatchIsSegmentwise(handlers[n].pattern, channel);
      assert forall i :: 0 <= i < n ==> handlers[..n][i] == handlers[i];
    }
  }
}
