/** Regular expressions as the classifier sees them: the parse tree of a rule, what it
    matches under IGNORECASE, and the rewriting of unbounded gaps (classifier.py). */
module Regex {
  import opened Options

  datatype Anchor = TextStart | TextEnd | WordEdge | NoWordEdge

  /** A parsed pattern is a list of items; MAX_REPEAT and MIN_REPEAT match the same spans. */
  datatype Pattern = End | Then(item: Item, rest: Pattern)

  datatype Item =
    | Lit(c: char)
    | Any
    | Class(members: seq<char>, negated: bool)
    | Group(body: Pattern)
    | Branch(alts: Alternatives)
    | Repeat(least: nat, most: Option<nat>, body: Pattern)
    | At(anchor: Anchor)
    | Look(ahead: bool, negative: bool, body: Pattern)

  datatype Alternatives = NoMore | Alt(first: Pattern, more: Alternatives)

  // ------------------------------------------------------------------ matching

  function Lower(c: char): char {
    if 'A' <= c <= 'Z' then (c as int + 32) as char else c
  }

  predicate IsWord(c: char) {
    'a' <= c <= 'z' || 'A' <= c <= 'Z' || '0' <= c <= '9' || c == '_'
  }

  predicate WordAt(s: string, i: int) {
    0 <= i < |s| && IsWord(s[i])
  }

  predicate Holds(a: Anchor, s: string, i: nat) {
    match a
    case TextStart => i == 0
    case TextEnd => i == |s| || (i == |s| - 1 && s[i] == '\n')
    case WordEdge => WordAt(s, i - 1) != WordAt(s, i)
    case NoWordEdge => WordAt(s, i - 1) == WordAt(s, i)
  }

  /** p matches exactly s[i..j] */
  ghost predicate Matches(p: Pattern, s: string, i: nat, j: nat)
    decreases p, 0
  {
    match p
    case End => i == j <= |s|
    case Then(item, rest) => exists k: nat :: i <= k <= j && ItemMatches(item, s, i, k) && Matches(rest, s, k, j)
  }

  ghost predicate ItemMatches(item: Item, s: string, i: nat, j: nat)
    decreases item, 0
  {
    i <= j <= |s| &&
    match item
    case Lit(c) => j == i + 1 && Lower(s[i]) == Lower(c)
    case Any => j == i + 1 && s[i] != '\n'
    case Class(members, negated) =>
      j == i + 1 && (negated != exists m :: m in members && Lower(m) == Lower(s[i]))
    case Group(body) => Matches(body, s, i, j)
    case Branch(alts) => SomeAltMatches(alts, s, i, j)
    case Repeat(least, most, body) =>
      exists n: nat :: least <= n && (most.Some? ==> n <= most.value) && MatchesTimes(body, n, s, i, j)
    case At(anchor) => j == i && Holds(anchor, s, i)
    case Look(ahead, negative, body) =>
      j == i && negative != (if ahead then exists k: nat :: Matches(body, s, i, k)
                             else exists k: nat :: Matches(body, s, k, i))
  }

  ghost predicate SomeAltMatches(alts: Alternatives, s: string, i: nat, j: nat)
    decreases alts, 0
  {
    match alts
    case NoMore => false
    case Alt(first, more) => Matches(first, s, i, j) || SomeAltMatches(more, s, i, j)
  }

  /** n consecutive matches of p fill s[i..j] */
  ghost predicate MatchesTimes(p: Pattern, n: nat, s: string, i: nat, j: nat)
    decreases p, 1, n
  {
    if n == 0 then i == j <= |s|
    else exists k: nat :: i <= k <= j && Matches(p, s, i, k) && MatchesTimes(p, n - 1, s, k, j)
  }

  /** `pattern.search(text)` finds something */
  ghost predicate Finds(p: Pattern, s: string) {
    exists i: nat, j: nat :: Matches(p, s, i, j)
  }

  /** Where the first item of a match ends. */
  lemma Split(p: Pattern, s: string, i: nat, j: nat) returns (k: nat)
    requires p.Then? && Matches(p, s, i, j)
    ensures i <= k <= j && ItemMatches(p.item, s, i, k) && Matches(p.rest, s, k, j)
  {
    k :| i <= k <= j && ItemMatches(p.item, s, i, k) && Matches(p.rest, s, k, j);
  }

  /** What a lookaround asks of its body: a match from here on, or up to here. */
  ghost predicate Seen(ahead: bool, body: Pattern, s: string, i: nat) {
    if ahead then exists k: nat :: Matches(body, s, i, k) else exists k: nat :: Matches(body, s, k, i)
  }

  lemma LookSees(ahead: bool, negative: bool, body: Pattern, s: string, i: nat, j: nat)
    ensures ItemMatches(Look(ahead, negative, body), s, i, j) <==> i == j <= |s| && negative != Seen(ahead, body, s, i)
  {
  }

  /** How often the body of a matching repeat matched. */
  lemma Repetitions(least: nat, most: Option<nat>, body: Pattern, s: string, i: nat, j: nat) returns (n: nat)
    requires ItemMatches(Repeat(least, most, body), s, i, j)
    ensures least <= n && (most.Some? ==> n <= most.value) && MatchesTimes(body, n, s, i, j)
  {
    n :| least <= n && (most.Some? ==> n <= most.value) && MatchesTimes(body, n, s, i, j);
  }

  /** The first of several matches in a row. */
  lemma FirstTime(p: Pattern, n: nat, s: string, i: nat, j: nat) returns (k: nat)
    requires MatchesTimes(p, n, s, i, j) && n >= 1
    ensures i <= k <= j && Matches(p, s, i, k) && MatchesTimes(p, n - 1, s, k, j)
  {
    k :| i <= k <= j && Matches(p, s, i, k) && MatchesTimes(p, n - 1, s, k, j);
  }

  lemma {:induction false} MatchIsSpan(p: Pattern, s: string, i: nat, j: nat)
    requires Matches(p, s, i, j)
    ensures i <= j <= |s|
    decreases p
  {
    if p.Then? {
      var k: nat :| i <= k <= j && ItemMatches(p.item, s, i, k) && Matches(p.rest, s, k, j);
      MatchIsSpan(p.rest, s, k, j);
    }
  }

  // ------------------------------------------------------------- gap rewriting

  const GAP: Pattern := Then(Any, End)

  /** `.*` anywhere in the tree becomes `.{0,limit}`; nothing else changes. */
  function Bound(p: Pattern, limit: nat): Pattern {
    match p
    case End => End
    case Then(item, rest) => Then(BoundItem(item, limit), Bound(rest, limit))
  }

  function BoundItem(item: Item, limit: nat): Item {
    match item
    case Group(body) => Group(Bound(body, limit))
    case Branch(alts) => Branch(BoundAlts(alts, limit))
    case Repeat(least, most, body) =>
      if least == 0 && most.None? && body == GAP then Repeat(0, Some(limit), body)
      else Repeat(least, most, Bound(body, limit))
    case Look(ahead, negative, body) => Look(ahead, negative, Bound(body, limit))
    case _ => item
  }

  function BoundAlts(alts: Alternatives, limit: nat): Alternatives {
    match alts
    case NoMore => NoMore
    case Alt(first, more) => Alt(Bound(first, limit), BoundAlts(more, limit))
  }
}
