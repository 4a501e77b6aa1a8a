/** What bounding the gaps of a rule does to the texts it matches (classifier.py). */
module GapInclusion {
  import opened Options
  import opened Regex

  // ------------------------------------------------------------- a single gap

  predicate OneLine(s: string, i: nat, j: nat) {
    j <= |s| && forall k :: i <= k < j ==> s[k] != '\n'
  }

  lemma {:induction false} GapTimes(n: nat, s: string, i: nat, j: nat)
    ensures MatchesTimes(GAP, n, s, i, j) <==> j == i + n && OneLine(s, i, j)
    decreases n
  {
    if n > 0 {
      if MatchesTimes(GAP, n, s, i, j) {
        var k := FirstTime(GAP, n, s, i, j);
        DotMatches(s, i, k);
        GapTimes(n - 1, s, k, j);
      }
      if j == i + n && OneLine(s, i, j) {
        DotMatches(s, i, i + 1);
        GapTimes(n - 1, s, i + 1, j);
        assert Matches(GAP, s, i, i + 1) && MatchesTimes(GAP, n - 1, s, i + 1, j);
      }
    }
  }

  lemma GapItem(most: Option<nat>, s: string, i: nat, j: nat)
    ensures ItemMatches(Repeat(0, most, GAP), s, i, j) <==>
            i <= j && OneLine(s, i, j) && (most.Some? ==> j - i <= most.value)
  {
    if ItemMatches(Repeat(0, most, GAP), s, i, j) {
      var n := Repetitions(0, most, GAP, s, i, j);
      GapTimes(n, s, i, j);
    }
    if i <= j && OneLine(s, i, j) {
      GapTimes(j - i, s, i, j);
    }
  }

  lemma DotMatches(s: string, i: nat, j: nat)
    ensures Matches(GAP, s, i, j) <==> j == i + 1 && j <= |s| && s[i] != '\n'
  {
    if j == i + 1 && j <= |s| && s[i] != '\n' {
      assert ItemMatches(Any, s, i, j) && Matches(End, s, j, j);
    }
  }

  // --------------------------------------------- when bounding only takes matches away

  /** Every unbounded gap stands under an even number of negative lookarounds, or under an odd one. */
  predicate GapsAt(p: Pattern, even: bool) {
    match p
    case End => true
    case Then(item, rest) => ItemGapsAt(item, even) && GapsAt(rest, even)
  }

  predicate ItemGapsAt(item: Item, even: bool) {
    match item
    case Group(body) => GapsAt(body, even)
    case Branch(alts) => AltGapsAt(alts, even)
    case Repeat(least, most, body) => if least == 0 && most.None? && body == GAP then even else GapsAt(body, even)
    case Look(ahead, negative, body) => GapsAt(body, even != negative)
    case _ => true
  }

  predicate AltGapsAt(alts: Alternatives, even: bool) {
    match alts
    case NoMore => true
    case Alt(first, more) => GapsAt(first, even) && AltGapsAt(more, even)
  }

  /** No stretch of a line is longer than the bound. */
  ghost predicate ShortLines(s: string, limit: nat) {
    forall a: nat, b: nat :: a <= b && OneLine(s, a, b) ==> b - a <= limit
  }

  /** How the bounded form compares with the original. */
  datatype Way = Fewer | More | Same

  function Turned(way: Way, negative: bool): Way {
    if negative then (match way case Fewer => More case More => Fewer case Same => Same) else way
  }

  predicate Compares(way: Way, bounded: bool, original: bool) {
    match way
    case Fewer => bounded ==> original
    case More => original ==> bounded
    case Same => bounded == original
  }

  /** The gaps, or the text, let the comparison go this way. */
  ghost predicate Allowed(way: Way, gapsAt: bool, s: string, limit: nat) {
    ShortLines(s, limit) || (!way.Same? && gapsAt)
  }

  lemma {:induction false} PatternCompares(p: Pattern, way: Way, limit: nat, s: string, i: nat, j: nat)
    requires Allowed(way, GapsAt(p, way.Fewer?), s, limit)
    ensures Compares(way, Matches(Bound(p, limit), s, i, j), Matches(p, s, i, j))
    decreases p, 0
  {
    match p
    case End =>
    case Then(item, rest) =>
      var bounded, after := BoundItem(item, limit), Bound(rest, limit);
      assert Bound(p, limit) == Then(bounded, after);
      if !way.More? && Matches(Then(bounded, after), s, i, j) {
        var k := Split(Then(bounded, after), s, i, j);
        ItemCompares(item, way, limit, s, i, k);
        PatternCompares(rest, way, limit, s, k, j);
      }
      if !way.Fewer? && Matches(p, s, i, j) {
        var k := Split(p, s, i, j);
        ItemCompares(item, way, limit, s, i, k);
        PatternCompares(rest, way, limit, s, k, j);
      }
  }

  lemma {:induction false} ItemCompares(item: Item, way: Way, limit: nat, s: string, i: nat, j: nat)
    requires Allowed(way, ItemGapsAt(item, way.Fewer?), s, limit)
    ensures Compares(way, ItemMatches(BoundItem(item, limit), s, i, j), ItemMatches(item, s, i, j))
    decreases item, 1
  {
    match item
    case Group(body) =>
      PatternCompares(body, way, limit, s, i, j);
    case Branch(alts) =>
      AltsCompare(alts, way, limit, s, i, j);
    case Repeat(least, most, body) =>
      if least == 0 && most.None? && body == GAP {
        GapItem(None, s, i, j);
        GapItem(Some(limit), s, i, j);
      } else {
        RepeatCompares(least, most, body, way, limit, s, i, j);
      }
    case Look(ahead, negative, body) =>
      LookCompares(ahead, body, Turned(way, negative), limit, s, i);
      LookSees(ahead, negative, body, s, i, j);
      LookSees(ahead, negative, Bound(body, limit), s, i, j);
    case _ =>
  }

  lemma {:induction false} RepeatCompares(least: nat, most: Option<nat>, body: Pattern, way: Way, limit: nat,
                                          s: string, i: nat, j: nat)
    requires Allowed(way, GapsAt(body, way.Fewer?), s, limit)
    ensures Compares(way, ItemMatches(Repeat(least, most, Bound(body, limit)), s, i, j),
                     ItemMatches(Repeat(least, most, body), s, i, j))
    decreases body, 2
  {
    if !way.More? && ItemMatches(Repeat(least, most, Bound(body, limit)), s, i, j) {
      var n := Repetitions(least, most, Bound(body, limit), s, i, j);
      TimesCompare(body, n, way, limit, s, i, j);
    }
    if !way.Fewer? && ItemMatches(Repeat(least, most, body), s, i, j) {
      var n := Repetitions(least, most, body, s, i, j);
      TimesCompare(body, n, way, limit, s, i, j);
    }
  }

  lemma {:induction false} LookCompares(ahead: bool, body: Pattern, way: Way, limit: nat, s: string, i: nat)
    requires Allowed(way, GapsAt(body, way.Fewer?), s, limit)
    ensures Compares(way, Seen(ahead, Bound(body, limit), s, i), Seen(ahead, body, s, i))
    decreases body, 1
  {
    forall k: nat
      ensures Compares(way, Matches(Bound(body, limit), s, i, k), Matches(body, s, i, k))
      ensures Compares(way, Matches(Bound(body, limit), s, k, i), Matches(body, s, k, i))
    {
      PatternCompares(body, way, limit, s, i, k);
      PatternCompares(body, way, limit, s, k, i);
    }
  }

  lemma {:induction false} TimesCompare(p: Pattern, n: nat, way: Way, limit: nat, s: string, i: nat, j: nat)
    requires Allowed(way, GapsAt(p, way.Fewer?), s, limit)
    ensures Compares(way, MatchesTimes(Bound(p, limit), n, s, i, j), MatchesTimes(p, n, s, i, j))
    decreases p, 1, n
  {
    if n > 0 && !way.More? && MatchesTimes(Bound(p, limit), n, s, i, j) {
      var k := FirstTime(Bound(p, limit), n, s, i, j);
      PatternCompares(p, way, limit, s, i, k);
      TimesCompare(p, n - 1, way, limit, s, k, j);
    }
    if n > 0 && !way.Fewer? && MatchesTimes(p, n, s, i, j) {
      var k := FirstTime(p, n, s, i, j);
      PatternCompares(p, way, limit, s, i, k);
      TimesCompare(p, n - 1, way, limit, s, k, j);
    }
  }

  lemma {:induction false} AltsCompare(alts: Alternatives, way: Way, limit: nat, s: string, i: nat, j: nat)
    requires Allowed(way, AltGapsAt(alts, way.Fewer?), s, limit)
    ensures Compares(way, SomeAltMatches(BoundAlts(alts, limit), s, i, j), SomeAltMatches(alts, s, i, j))
    decreases alts, 0
  {
    match alts
    case NoMore =>
    case Alt(first, more) =>
      PatternCompares(first, way, limit, s, i, j);
      AltsCompare(more, way, limit, s, i, j);
  }

  /** With every gap under an even number of negative lookarounds, bounding adds no match. */
  lemma EvenGapsMatchFewer(p: Pattern, limit: nat, s: string, i: nat, j: nat)
    requires GapsAt(p, true) && Matches(Bound(p, limit), s, i, j)
    ensures Matches(p, s, i, j)
  {
    PatternCompares(p, Fewer, limit, s, i, j);
  }

  /** With every gap under an odd number, bounding loses no match. */
  lemma OddGapsMatchMore(p: Pattern, limit: nat, s: string, i: nat, j: nat)
    requires GapsAt(p, false) && Matches(p, s, i, j)
    ensures Matches(Bound(p, limit), s, i, j)
  {
    PatternCompares(p, More, limit, s, i, j);
  }

  ghost predicate GapsNeverMatter(s: string, limit: nat) {
    forall p, i: nat, j: nat :: Matches(Bound(p, limit), s, i, j) <==> Matches(p, s, i, j)
  }

  /** On a text, bounding changes no match of any pattern exactly when no stretch of one of its
      lines is longer than the bound. */
  lemma GapsNeverMatterIff(s: string, limit: nat)
    ensures GapsNeverMatter(s, limit) <==> ShortLines(s, limit)
  {
    if ShortLines(s, limit) {
      forall p, i: nat, j: nat ensures Matches(Bound(p, limit), s, i, j) <==> Matches(p, s, i, j) {
        PatternCompares(p, Same, limit, s, i, j);
      }
    } else {
      var a: nat, b: nat :| a <= b && OneLine(s, a, b) && b - a > limit;
      var p := Then(Repeat(0, None, GAP), End);
      OnlyGap(None, s, a, b);
      OnlyGap(Some(limit), s, a, b);
      assert Bound(p, limit) == Then(Repeat(0, Some(limit), GAP), End);
      assert Matches(Bound(p, limit), s, a, b) != Matches(p, s, a, b);
    }
  }

  lemma OnlyGap(most: Option<nat>, s: string, i: nat, j: nat)
    ensures Matches(Then(Repeat(0, most, GAP), End), s, i, j) <==>
              i <= j && OneLine(s, i, j) && (most.Some? ==> j - i <= most.value)
  {
    GapItem(most, s, i, j);
    assert i <= j <= |s| && ItemMatches(Repeat(0, most, GAP), s, i, j) ==> Matches(End, s, j, j);
  }

  // ------------------------------------------------------ and when it does not

  /** An `a` with no `c` after it on the line. */
  const NO_C_AFTER: Pattern :=
    Then(Lit('a'), Then(Look(true, true, Then(Repeat(0, None, GAP), Then(Lit('c'), End))), End))

  function FarC(n: nat): string {
    "a" + seq(n + 1, _ => 'x') + "c"
  }

  /** `.*c` with the gap unbounded or bounded: a `c` at most that far behind a newline-free gap. */
  lemma GapThenC(most: Option<nat>, s: string, i: nat, j: nat)
    ensures Matches(Then(Repeat(0, most, GAP), Then(Lit('c'), End)), s, i, j) <==>
            i < j <= |s| && Lower(s[j - 1]) == 'c' && OneLine(s, i, j - 1) && (most.Some? ==> j - 1 - i <= most.value)
  {
    var tail := Then(Lit('c'), End);
    var gap := Repeat(0, most, GAP);
    forall k: nat ensures Matches(tail, s, k, j) <==> k + 1 == j <= |s| && Lower(s[k]) == 'c' {
      if k + 1 == j <= |s| && Lower(s[k]) == 'c' {
        assert ItemMatches(Lit('c'), s, k, j) && Matches(End, s, j, j);
      }
    }
    if i < j <= |s| {
      GapItem(most, s, i, j - 1);
      assert Matches(Then(gap, tail), s, i, j) <==> ItemMatches(gap, s, i, j - 1) && Matches(tail, s, j - 1, j);
    }
  }

  /** Bounding the gap inside a negative lookahead can make a pattern match more: whatever the
      limit, this text is found by the bounded pattern and not by the original. */
  lemma BoundedMatchesMore(limit: nat)
    ensures Finds(Bound(NO_C_AFTER, limit), FarC(limit)) && !Finds(NO_C_AFTER, FarC(limit))
  {
    var s := FarC(limit);
    var ahead := Then(Repeat(0, None, GAP), Then(Lit('c'), End));
    var bounded := Then(Repeat(0, Some(limit), GAP), Then(Lit('c'), End));
    assert Bound(Then(Lit('c'), End), limit) == Then(Lit('c'), End);
    assert Bound(ahead, limit) == bounded;
    assert Bound(Then(Look(true, true, ahead), End), limit) == Then(Look(true, true, bounded), End);
    assert Bound(NO_C_AFTER, limit) == Then(Lit('a'), Then(Look(true, true, bounded), End));
    assert |s| == limit + 3 && s[0] == 'a' && s[limit + 2] == 'c';
    assert forall k :: 1 <= k < limit + 2 ==> s[k] == 'x';
    forall k: nat ensures !Matches(bounded, s, 1, k) { GapThenC(Some(limit), s, 1, k); }
    assert ItemMatches(Look(true, true, bounded), s, 1, 1) && Matches(End, s, 1, 1);
    assert Matches(Then(Look(true, true, bounded), End), s, 1, 1);
    assert ItemMatches(Lit('a'), s, 0, 1);
    assert Matches(Bound(NO_C_AFTER, limit), s, 0, 1);
    GapThenC(None, s, 1, |s|);
    assert Matches(ahead, s, 1, |s|);
    forall i: nat, j: nat ensures !Matches(NO_C_AFTER, s, i, j) {
      assert !Matches(Then(Look(true, true, ahead), End), s, 1, j);
    }
  }
}
