/** Where the stanzas of a brace-style config lie (rag.py), told by counting braces alone: a stanza
    goes from the line that opens it to the one that brings the depth back, and holds the statements
    and stanzas at its own depth. */
module BraceSpans {
  import opened BraceTree
  import opened Ordering
  import opened Text

  /** Line x opens a stanza at depth d. */
  predicate OpensAt(lines: seq<string>, x: nat, d: nat) {
    0 < x <= |lines| && Opens(lines[x - 1]) && Depth(lines, x - 1) == d
  }

  /** Line x is a statement at depth d. */
  predicate PlainAt(lines: seq<string>, x: nat, d: nat) {
    0 < x <= |lines| && Plain(lines[x - 1]) && Depth(lines, x - 1) == d
  }

  ghost predicate DeepBetween(lines: seq<string>, lo: nat, hi: nat, d: nat) {
    forall j :: lo <= j < hi && j <= |lines| ==> Depth(lines, j) > d
  }

  ghost predicate KidSpans(lines: seq<string>, kids: seq<Node>, k: nat, lo: nat, hi: nat, d: nat)
    requires k < |kids|
    decreases kids, 0
  {
    lo < kids[k].start && kids[k].end <= hi && Spans(lines, kids[k], d)
  }

  ghost predicate StartsKid(kids: seq<Node>, x: nat) {
    exists k :: 0 <= k < |kids| && kids[k].start == x
  }

  /** The kids are the stanzas that open at depth d between the lines lo and hi. */
  ghost predicate AreKids(lines: seq<string>, kids: seq<Node>, lo: nat, hi: nat, d: nat)
    decreases kids, 1
  {
    && (forall k: nat :: k < |kids| ==> KidSpans(lines, kids, k, lo, hi, d))
    && forall x: nat :: lo < x <= hi && OpensAt(lines, x, d) ==> StartsKid(kids, x)
  }

  ghost predicate AreDirect(lines: seq<string>, direct: seq<nat>, lo: nat, hi: nat, d: nat) {
    forall x: nat :: x in direct <==> lo < x <= hi && PlainAt(lines, x, d)
  }

  /** A stanza at depth d: its head line, where it ends, and what is directly in it. It ends where
      the depth is back to d or, if it never is, with the file. */
  ghost predicate Spans(lines: seq<string>, n: Node, d: nat)
    decreases n
  {
    && OpensAt(lines, n.start, d) && n.head == Strip(DropBraces(Strip(lines[n.start - 1])))
    && n.start <= n.end <= |lines| && DeepBetween(lines, n.start, n.end, d)
    && (if Depth(lines, n.end) == d then Closes(lines[n.end - 1])
        else Depth(lines, n.end) > d && n.end == |lines|)
    && AreKids(lines, n.kids, n.start, n.end, d + 1) && AreDirect(lines, n.direct, n.start, n.end, d + 1)
  }

  // ------------------------------------------------------------- while stanzas are open

  /** What is in n up to line lim; the root keeps more than statements for itself. */
  ghost predicate Filled(lines: seq<string>, n: Node, lim: nat, d: nat) {
    && AreKids(lines, n.kids, n.start, lim, d)
    && (n.start > 0 ==> AreDirect(lines, n.direct, n.start, lim, d))
  }

  /** n was opened at depth d and has not been closed by line m. */
  ghost predicate StillOpen(lines: seq<string>, n: Node, m: nat, d: nat) {
    && OpensAt(lines, n.start, d) && n.head == Strip(DropBraces(Strip(lines[n.start - 1])))
    && n.start <= m <= |lines| && DeepBetween(lines, n.start, m + 1, d)
  }

  ghost predicate StackSpans(lines: seq<string>, stack: seq<Node>, m: nat, lim: nat)
    requires stack != []
    decreases |stack|
  {
    && Filled(lines, Top(stack), lim, |stack| - 1)
    && if |stack| == 1 then Top(stack).start == 0
       else StillOpen(lines, Top(stack), m, |stack| - 2) && StackSpans(lines, Below(stack), m, Top(stack).start - 1)
  }

  lemma FilledOn(lines: seq<string>, n: Node, lim: nat, d: nat)
    requires Filled(lines, n, lim, d)
    requires !OpensAt(lines, lim + 1, d) && !PlainAt(lines, lim + 1, d)
    ensures Filled(lines, n, lim + 1, d)
  {
    KidsOn(lines, n.kids, n.start, lim, lim + 1, d);
  }

  lemma KidsOn(lines: seq<string>, kids: seq<Node>, lo: nat, lim: nat, hi: nat, d: nat)
    requires AreKids(lines, kids, lo, lim, d) && lim <= hi
    requires forall x: nat :: lim < x <= hi ==> !OpensAt(lines, x, d)
    ensures AreKids(lines, kids, lo, hi, d)
  {
    forall k: nat | k < |kids| ensures KidSpans(lines, kids, k, lo, hi, d) {
      assert KidSpans(lines, kids, k, lo, lim, d);
    }
  }

  lemma StackIs(lines: seq<string>, stack: seq<Node>, m: nat, lim: nat)
    requires stack != []
    ensures StackSpans(lines, stack, m, lim) <==>
              Filled(lines, Top(stack), lim, |stack| - 1)
              && if |stack| == 1 then Top(stack).start == 0
                 else StillOpen(lines, Top(stack), m, |stack| - 2)
                      && StackSpans(lines, Below(stack), m, Top(stack).start - 1)
  {
  }

  /** One more line that stays below every open stanza. */
  lemma {:induction false} OpenOn(lines: seq<string>, stack: seq<Node>, m: nat, lim: nat)
    requires stack != [] && m < |lines| && StackSpans(lines, stack, m, lim)
    requires Depth(lines, m + 1) >= |stack| - 1
    ensures StackSpans(lines, stack, m + 1, lim)
    decreases |stack|
  {
    hide Filled, Depth;
    StackIs(lines, stack, m, lim);
    StackIs(lines, stack, m + 1, lim);
    hide StackSpans;
    if |stack| > 1 { OpenOn(lines, Below(stack), m, Top(stack).start - 1); }
  }

  /** A kid that spans up to line hi is all that its parent gets from its lines. */
  lemma KidJoins(lines: seq<string>, n: Node, kid: Node, d: nat)
    requires Spans(lines, kid, d) && n.start < kid.start && Filled(lines, n, kid.start - 1, d)
    ensures Filled(lines, WithKid(n, kid), kid.end, d)
  {
    var kids := n.kids + [kid];
    forall x: nat | kid.start < x <= kid.end ensures !OpensAt(lines, x, d) && !PlainAt(lines, x, d) {
      assert Depth(lines, x - 1) > d;
    }
    forall k: nat | k < |kids| ensures KidSpans(lines, kids, k, n.start, kid.end, d) {
      assert k < |n.kids| ==> KidSpans(lines, n.kids, k, n.start, kid.start - 1, d);
    }
    forall x: nat | n.start < x <= kid.end && OpensAt(lines, x, d) ensures StartsKid(kids, x) {
      if x < kid.start {
        var k :| 0 <= k < |n.kids| && n.kids[k].start == x;
        assert kids[k].start == x;
      } else {
        assert kids[|n.kids|].start == x;
      }
    }
    assert !PlainAt(lines, kid.start, d);
  }

  /** The top stanza is closed by line end. */
  lemma PopSpans(lines: seq<string>, stack: seq<Node>, m: nat, end: nat)
    requires |stack| > 1 && StackSpans(lines, stack, m, m)
    requires Spans(lines, Top(stack).(end := end), |stack| - 2)
    requires end == m || (end == m + 1 && Depth(lines, end) == |stack| - 2)
    ensures StackSpans(lines, Pop(stack, end), end, end)
  {
    hide *;
    ParentFirst(lines, stack, m);
    StartsInFile(lines, stack, m);
    SpanEnds(lines, Top(stack).(end := end), |stack| - 2);
    if end == m + 1 { OpenOn(lines, Below(stack), m, Top(stack).start - 1); }
    KidPops(lines, stack, end);
  }

  lemma StartsInFile(lines: seq<string>, stack: seq<Node>, m: nat)
    requires |stack| > 1 && StackSpans(lines, stack, m, m)
    ensures 0 < Top(stack).start <= m <= |lines| && StackSpans(lines, Below(stack), m, Top(stack).start - 1)
    ensures |Below(stack)| == |stack| - 1
  {
  }

  lemma KidPops(lines: seq<string>, stack: seq<Node>, end: nat)
    requires |stack| > 1 && 0 < Top(stack).start
    requires Spans(lines, Top(stack).(end := end), |stack| - 2)
    requires StackSpans(lines, Below(stack), end, Top(stack).start - 1)
    requires Top(Below(stack)).start < Top(stack).start
    ensures StackSpans(lines, Pop(stack, end), end, end)
  {
    hide *;
    var rest, kid, next := Below(stack), Top(stack).(end := end), Pop(stack, end);
    PopIs(stack, end);
    StackIs(lines, rest, end, kid.start - 1);
    StackIs(lines, next, end, end);
    SpanEnds(lines, kid, |stack| - 2);
    JoinsParent(lines, Top(rest), kid, |stack| - 2);
    if |stack| > 2 { KidStaysOpen(lines, Top(rest), kid, end, |stack| - 3); }
  }

  lemma JoinsParent(lines: seq<string>, n: Node, kid: Node, d: nat)
    requires Spans(lines, kid, d) && 0 < kid.start && n.start < kid.start && Filled(lines, n, kid.start - 1, d)
    ensures Filled(lines, WithKid(n, kid), kid.end, d) && WithKid(n, kid).start == n.start
  {
    hide Spans, Filled;
    KidJoins(lines, n, kid, d);
  }

  lemma PopIs(stack: seq<Node>, end: nat)
    requires |stack| > 1
    ensures var rest, next := Below(stack), Pop(stack, end);
            && |rest| == |stack| - 1 && |next| == |rest| && Below(next) == Below(rest)
            && Top(next) == WithKid(Top(rest), Top(stack).(end := end))
  {
    assert Below(Pop(stack, end)) == Below(Below(stack));
  }

  lemma KidStaysOpen(lines: seq<string>, n: Node, kid: Node, m: nat, d: nat)
    ensures StillOpen(lines, n, m, d) ==> StillOpen(lines, WithKid(n, kid), m, d)
  {
  }

  lemma SpanEnds(lines: seq<string>, n: Node, d: nat)
    requires Spans(lines, n, d)
    ensures 0 < n.start <= n.end <= |lines|
  {
  }

  /** A stanza was opened before the one above it on the stack. */
  lemma ParentFirst(lines: seq<string>, stack: seq<Node>, m: nat)
    requires |stack| > 1 && StackSpans(lines, stack, m, m)
    ensures Top(Below(stack)).start < Top(stack).start
  {
  }

  lemma TopCloses(lines: seq<string>, stack: seq<Node>, m: nat)
    requires |stack| > 1 && m < |lines| && StackSpans(lines, stack, m, m)
    requires Closes(lines[m]) && Depth(lines, m) == |stack| - 1
    ensures Spans(lines, Top(stack).(end := m + 1), |stack| - 2)
  {
    StackIs(lines, stack, m, m);
    hide StackSpans;
    assert Depth(lines, m + 1) == |stack| - 2;
    FilledOn(lines, Top(stack), m, |stack| - 1);
    hide Depth, Closes, Opens, AreKids, AreDirect;
  }

  lemma TopRunsOut(lines: seq<string>, stack: seq<Node>)
    requires |stack| > 1 && StackSpans(lines, stack, |lines|, |lines|)
    ensures Spans(lines, Top(stack).(end := |lines|), |stack| - 2)
  {
  }

  lemma StatementJoins(lines: seq<string>, n: Node, lim: nat, d: nat)
    requires Filled(lines, n, lim, d) && n.start <= lim && PlainAt(lines, lim + 1, d)
    ensures Filled(lines, WithLine(n, lim + 1), lim + 1, d)
  {
    KidsOn(lines, n.kids, n.start, lim, lim + 1, d);
  }

  lemma StrayJoins(lines: seq<string>, n: Node, lim: nat, d: nat)
    requires Filled(lines, n, lim, d) && n.start == 0 && !OpensAt(lines, lim + 1, d)
    ensures Filled(lines, WithLine(n, lim + 1), lim + 1, d)
  {
    KidsOn(lines, n.kids, n.start, lim, lim + 1, d);
  }

  lemma NewlyOpened(lines: seq<string>, m: nat, d: nat)
    requires m < |lines| && OpensAt(lines, m + 1, d)
    ensures Filled(lines, Opened(m + 1, lines[m]), m + 1, d + 1)
    ensures StillOpen(lines, Opened(m + 1, lines[m]), m + 1, d)
  {
  }

  /** One more line keeps every open stanza where it is. */
  lemma StepSpans(lines: seq<string>, stack: seq<Node>, m: nat)
    requires stack != [] && m < |lines| && StackSpans(lines, stack, m, m)
    requires |stack| == Depth(lines, m) + 1
    ensures StackSpans(lines, Step(stack, m + 1, lines[m]), m + 1, m + 1)
  {
    hide Filled, Spans, StackSpans, Ignored, Opens, Strip;
    var raw := lines[m];
    if Ignored(raw) {
      SkipSpans(lines, stack, m);
    } else if Opens(raw) {
      PushSpans(lines, stack, m);
    } else if Closes(raw) && |stack| > 1 {
      TopCloses(lines, stack, m);
      PopSpans(lines, stack, m, m + 1);
    } else {
      LineSpans(lines, stack, m);
    }
  }

  lemma SkipSpans(lines: seq<string>, stack: seq<Node>, m: nat)
    requires stack != [] && m < |lines| && StackSpans(lines, stack, m, m)
    requires |stack| == Depth(lines, m) + 1 && Ignored(lines[m])
    ensures StackSpans(lines, stack, m + 1, m + 1)
  {
    OpenOn(lines, stack, m, m);
    StackIs(lines, stack, m + 1, m);
    StackIs(lines, stack, m + 1, m + 1);
    FilledOn(lines, Top(stack), m, |stack| - 1);
    hide StackSpans, Filled, StillOpen;
  }

  lemma PushSpans(lines: seq<string>, stack: seq<Node>, m: nat)
    requires stack != [] && m < |lines| && StackSpans(lines, stack, m, m)
    requires |stack| == Depth(lines, m) + 1 && Opens(lines[m])
    ensures StackSpans(lines, stack + [Opened(m + 1, lines[m])], m + 1, m + 1)
  {
    OpenOn(lines, stack, m, m);
    NewlyOpened(lines, m, |stack| - 1);
    var next := stack + [Opened(m + 1, lines[m])];
    assert Below(next) == stack;
    StackIs(lines, next, m + 1, m + 1);
    hide StackSpans, Filled, StillOpen;
  }

  lemma LineSpans(lines: seq<string>, stack: seq<Node>, m: nat)
    requires stack != [] && m < |lines| && StackSpans(lines, stack, m, m)
    requires |stack| == Depth(lines, m) + 1
    requires Plain(lines[m]) || (Closes(lines[m]) && |stack| == 1)
    ensures StackSpans(lines, Below(stack) + [WithLine(Top(stack), m + 1)], m + 1, m + 1)
  {
    OpenOn(lines, stack, m, m);
    StackIs(lines, stack, m + 1, m);
    if |stack| > 1 {
      StatementJoins(lines, Top(stack), m, |stack| - 1);
    } else {
      StrayJoins(lines, Top(stack), m, |stack| - 1);
    }
    var next := Below(stack) + [WithLine(Top(stack), m + 1)];
    assert Below(next) == Below(stack);
    StackIs(lines, next, m + 1, m + 1);
    hide StackSpans, Filled, StillOpen;
  }

  lemma {:induction false} ParseSpans(lines: seq<string>, n: nat)
    requires n <= |lines|
    ensures StackSpans(lines, Parse(lines, n), n, n)
  {
    hide StackSpans, Depth;
    if n == 0 {
      RootSpans(lines);
    } else {
      ParseSpans(lines, n - 1);
      DepthIsStack(lines, n - 1);
      hide Step;
      StepSpans(lines, Parse(lines, n - 1), n - 1);
    }
  }

  lemma RootSpans(lines: seq<string>)
    ensures StackSpans(lines, [ROOT], 0, 0)
  {
  }

  lemma {:induction false} CloseAllSpans(lines: seq<string>, stack: seq<Node>)
    requires stack != [] && StackSpans(lines, stack, |lines|, |lines|)
    ensures AreKids(lines, CloseAll(stack, |lines|).kids, 0, |lines|, 0)
    decreases |stack|
  {
    if |stack| > 1 {
      TopRunsOut(lines, stack);
      PopSpans(lines, stack, |lines|, |lines|);
      hide StackSpans, AreKids, Spans;
      CloseAllSpans(lines, Pop(stack, |lines|));
    }
  }

  /** The top-level stanzas of a file are exactly those that open at depth zero, each from its head
      line to the line that closes it, with exactly what lies between inside. */
  lemma StanzasSpan(lines: seq<string>)
    ensures AreKids(lines, Stanzas(lines), 0, |lines|, 0)
  {
    ParseSpans(lines, |lines|);
    CloseAllSpans(lines, Parse(lines, |lines|));
  }
}
