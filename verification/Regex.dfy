/** Regular expressions without groups or alternatives, after section 22.2.1 (patterns) and 22.2.2
    (their meaning) of ECMA-262: anchors, characters, escaped syntax characters, `.`, classes, `*`. */
module Regex {
  import opened Text

  datatype CharSet = OneOf(members: string) | NoneOf(members: string)

  datatype Term = Start | End | One(chars: CharSet) | Star(chars: CharSet)

  predicate In(c: char, s: CharSet) {
    match s
    case OneOf(cs) => c in cs
    case NoneOf(cs) => c !in cs
  }

  /** SyntaxCharacter */
  predicate IsSyntax(c: char) { c in "^$\\.*+?()[]{}|" }

  /** Position of the `]` that closes a class body without escapes, ranges or nested brackets. */
  function ClassEnd(text: string, from: nat): (n: Option<nat>)
    requires from <= |text|
    ensures n.Some? ==> from <= n.value < |text|
    decreases |text| - from
  {
    if from == |text| || text[from] in "\\-[" then None
    else if text[from] == ']' then Some(from)
    else ClassEnd(text, from + 1)
  }

  /** One atom at the head of the text, and its length. */
  function ParseAtom(text: string): (a: Option<(CharSet, nat)>)
    requires text != []
    ensures a.Some? ==> 0 < a.value.1 <= |text|
  {
    var c := text[0];
    if c == '\\' then
      if |text| > 1 && IsSyntax(text[1]) then Some((OneOf([text[1]]), 2)) else None
    else if c == '.' then Some((NoneOf("\n\r\U{2028}\U{2029}"), 1))
    else if c == '[' then
      var negated := |text| > 1 && text[1] == '^';
      var from := if negated then 2 else 1;
      var n := ClassEnd(text, from);
      if n.None? then None
      else Some((if negated then NoneOf(text[from..n.value]) else OneOf(text[from..n.value]), n.value + 1))
    else if IsSyntax(c) then None
    else Some((OneOf([c]), 1))
  }

  function Prepend(t: seq<Term>, rest: Option<seq<Term>>): Option<seq<Term>> {
    if rest.None? then None else Some(t + rest.value)
  }

  /** The terms of a pattern text; None for text outside this grammar. */
  function Parse(text: string): Option<seq<Term>>
    decreases |text|
  {
    if text == [] then Some([])
    else if text[0] == '^' then Prepend([Start], Parse(text[1..]))
    else if text[0] == '$' then Prepend([End], Parse(text[1..]))
    else
      var a := ParseAtom(text);
      if a.None? then None
      else
        var (x, n) := a.value;
        if n < |text| && text[n] == '*' then Prepend([Star(x)], Parse(text[n + 1..]))
        else Prepend([One(x)], Parse(text[n..]))
  }

  /** The terms match the head of `s`; `first` says whether `s` is the whole input. A star may take
      any number of characters, and the rest is tried after each. */
  predicate Matches(terms: seq<Term>, s: string, first: bool)
    decreases |terms|, |s|
  {
    if terms == [] then true
    else
      match terms[0]
      case Start => first && Matches(terms[1..], s, first)
      case End => s == [] && Matches(terms[1..], s, first)
      case One(x) => s != [] && In(s[0], x) && Matches(terms[1..], s[1..], false)
      case Star(x) => || Matches(terms[1..], s, first)
                      || (s != [] && In(s[0], x) && Matches(terms, s[1..], false))
  }

  /** `rx.test(s)`: a match from some position. */
  predicate Test(terms: seq<Term>, s: string) {
    exists i :: 0 <= i <= |s| && Matches(terms, s[i..], i == 0)
  }
}
