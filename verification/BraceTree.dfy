/** The brace-stack parser of rag.py: an explicit stack of open stanzas, closed at the end of the
    input when braces are missing. `Step` is one line, `Parse` a prefix of the file, `Stanzas` the
    whole file. Two things are kept on the way: every stanza on the stack fits up to the line read
    (`StackFits`), and the stack holds exactly the statements seen inside a stanza (`StackHolds`),
    where being inside is defined by counting braces. */
module BraceTree {
  import opened Ordering
  import opened Text

  /** Lines are numbered from 1; direct holds the statements between the stanza's kids. */
  datatype Node = Node(head: string, start: nat, end: nat, kids: seq<Node>, direct: seq<nat>)

  predicate Ignored(raw: string) {
    var s := Strip(raw);
    s == "" || "#" <= s || "/*" <= s
  }

  predicate Opens(raw: string) {
    !Ignored(raw) && EndsWith(Strip(raw), '{')
  }

  predicate Closes(raw: string) {
    !Ignored(raw) && !Opens(raw) && "}" <= Strip(raw)
  }

  predicate Plain(raw: string) {
    !Ignored(raw) && !Opens(raw) && !Closes(raw)
  }

  function Opened(num: nat, raw: string): Node {
    Node(Strip(DropBraces(Strip(raw))), num, num, [], [])
  }

  function Top(stack: seq<Node>): Node
    requires stack != []
  {
    stack[|stack| - 1]
  }

  function Below(stack: seq<Node>): seq<Node>
    requires stack != []
  {
    stack[..|stack| - 1]
  }

  function WithKid(n: Node, kid: Node): Node {
    n.(kids := n.kids + [kid])
  }

  function WithLine(n: Node, num: nat): Node {
    n.(direct := n.direct + [num])
  }

  /** The top stanza ends here and becomes a kid of the one below. */
  function Pop(stack: seq<Node>, end: nat): seq<Node>
    requires |stack| > 1
  {
    var rest := Below(stack);
    Below(rest) + [WithKid(Top(rest), Top(stack).(end := end))]
  }

  function Step(stack: seq<Node>, num: nat, raw: string): (next: seq<Node>)
    requires stack != []
    ensures next != []
  {
    if Ignored(raw) then stack
    else if Opens(raw) then stack + [Opened(num, raw)]
    else if Closes(raw) && |stack| > 1 then Pop(stack, num)
    else Below(stack) + [WithLine(Top(stack), num)]
  }

  const ROOT := Node("", 0, 0, [], [])

  function Parse(lines: seq<string>, n: nat): (stack: seq<Node>)
    requires n <= |lines|
    ensures stack != []
  {
    if n == 0 then [ROOT] else Step(Parse(lines, n - 1), n, lines[n - 1])
  }

  function CloseAll(stack: seq<Node>, end: nat): Node
    requires stack != []
    decreases |stack|
  {
    if |stack| == 1 then stack[0] else CloseAll(Pop(stack, end), end)
  }

  /** The top-level stanzas of a configuration. */
  function Stanzas(lines: seq<string>): seq<Node> {
    CloseAll(Parse(lines, |lines|), |lines|).kids
  }

  /** The parsing loops of `_curly_chunks`. */
  method ParseStanzas(lines: seq<string>) returns (tops: seq<Node>)
    ensures tops == Stanzas(lines)
  {
    var stack := [ROOT];
    for i := 0 to |lines|
      invariant stack == Parse(lines, i)
    {
      var raw := lines[i];
      if Ignored(raw) {
      } else if Opens(raw) {
        stack := stack + [Opened(i + 1, raw)];
      } else if Closes(raw) && |stack| > 1 {
        stack := Pop(stack, i + 1);
      } else {
        stack := stack[..|stack| - 1] + [WithLine(stack[|stack| - 1], i + 1)];
      }
    }
    while |stack| > 1
      invariant stack != [] && CloseAll(stack, |lines|) == CloseAll(Parse(lines, |lines|), |lines|)
      decreases |stack|
    {
      stack := Pop(stack, |lines|);
    }
    tops := stack[0].kids;
  }

  // ----------------------------------------------------------- the stanzas nest

  ghost predicate KidFits(n: Node, k: nat)
    requires k < |n.kids|
    decreases n, 0
  {
    n.start < n.kids[k].start && n.kids[k].end <= n.end && Fits(n.kids[k])
  }

  ghost predicate InOrder(kids: seq<Node>) {
    forall a, b :: 0 <= a < b < |kids| ==> kids[a].end < kids[b].start
  }

  ghost predicate Beside(x: nat, kids: seq<Node>) {
    forall k :: 0 <= k < |kids| ==> x < kids[k].start || kids[k].end < x
  }

  ghost predicate LineFits(n: Node, x: nat) {
    n.start < x <= n.end && Beside(x, n.kids)
  }

  /** Kids lie inside in order without overlap, and statements lie beside them. */
  ghost predicate Fits(n: Node)
    decreases n, 1
  {
    && n.start <= n.end
    && (forall k: nat :: k < |n.kids| ==> KidFits(n, k))
    && InOrder(n.kids)
    && Ascending(n.direct)
    && (forall x :: x in n.direct ==> LineFits(n, x))
  }

  /** Fits up to line lim, for a stanza still open. */
  ghost predicate FitsTo(n: Node, lim: nat) {
    Fits(n.(end := lim))
  }

  ghost predicate StackFits(stack: seq<Node>, lim: nat)
    requires stack != []
    decreases |stack|
  {
    && FitsTo(Top(stack), lim)
    && (|stack| > 1 ==> Top(stack).start > 0 && StackFits(Below(stack), Top(stack).start - 1))
  }

  lemma FitsLonger(n: Node, a: nat, b: nat)
    requires FitsTo(n, a) && a <= b
    ensures FitsTo(n, b)
  {
    forall k: nat | k < |n.kids| ensures KidFits(n.(end := b), k) {
      assert KidFits(n.(end := a), k);
    }
    forall x | x in n.direct ensures LineFits(n.(end := b), x) {
      assert LineFits(n.(end := a), x);
    }
  }

  lemma KidAdded(n: Node, kid: Node, end: nat)
    requires 0 < kid.start <= end && FitsTo(n, kid.start - 1) && FitsTo(kid, end)
    ensures FitsTo(WithKid(n, kid.(end := end)), end)
  {
    var before, closed := n.(end := kid.start - 1), kid.(end := end);
    var after := WithKid(n, closed).(end := end);
    assert n.start <= kid.start - 1;
    forall k: nat | k < |after.kids| ensures KidFits(after, k) {
      if k < |n.kids| { assert KidFits(before, k); }
    }
    forall k: nat | k < |n.kids| ensures n.kids[k].end < kid.start { assert KidFits(before, k); }
    forall x | x in n.direct ensures LineFits(after, x) { assert LineFits(before, x); }
  }

  lemma LineAdded(n: Node, lim: nat)
    requires FitsTo(n, lim)
    ensures FitsTo(WithLine(n, lim + 1), lim + 1)
  {
    var before, after := n.(end := lim), WithLine(n, lim + 1).(end := lim + 1);
    forall k: nat | k < |n.kids| ensures KidFits(after, k) { assert KidFits(before, k); }
    forall k: nat | k < |n.kids| ensures n.kids[k].end <= lim { assert KidFits(before, k); }
    forall x | x in after.direct ensures LineFits(after, x) {
      if x in n.direct { assert LineFits(before, x); } else { assert x == lim + 1; }
    }
    forall i | 0 <= i < |n.direct| ensures n.direct[i] <= lim {
      assert n.direct[i] in n.direct && LineFits(before, n.direct[i]);
    }
    assert Ascending(after.direct);
    assert Fits(after);
  }

  lemma PopFits(stack: seq<Node>, lim: nat, end: nat)
    requires |stack| > 1 && StackFits(stack, lim) && lim <= end
    ensures StackFits(Pop(stack, end), end)
  {
    var kid, rest := Top(stack), Below(stack);
    FitsLonger(kid, lim, end);
    KidAdded(Top(rest), kid, end);
    assert Below(Pop(stack, end)) == Below(rest);
  }

  lemma StepFits(stack: seq<Node>, num: nat, raw: string)
    requires num > 0 && stack != [] && StackFits(stack, num - 1)
    ensures StackFits(Step(stack, num, raw), num)
  {
    hide FitsTo, StackFits, Pop, Plain, Strip;
    if Ignored(raw) {
      SkipFits(stack, num);
    } else if Opens(raw) {
      PushFits(stack, num, raw);
    } else if Closes(raw) && |stack| > 1 {
      PopFits(stack, num - 1, num);
    } else {
      LineStackFits(stack, num);
    }
  }

  lemma SkipFits(stack: seq<Node>, num: nat)
    requires num > 0 && stack != [] && StackFits(stack, num - 1)
    ensures StackFits(stack, num)
  {
    FitsLonger(Top(stack), num - 1, num);
  }

  lemma PushFits(stack: seq<Node>, num: nat, raw: string)
    requires num > 0 && stack != [] && StackFits(stack, num - 1)
    ensures StackFits(stack + [Opened(num, raw)], num)
  {
    assert Below(stack + [Opened(num, raw)]) == stack;
    assert FitsTo(Opened(num, raw), num);
  }

  lemma LineStackFits(stack: seq<Node>, num: nat)
    requires num > 0 && stack != [] && StackFits(stack, num - 1)
    ensures StackFits(Below(stack) + [WithLine(Top(stack), num)], num)
  {
    LineAdded(Top(stack), num - 1);
    assert Below(Below(stack) + [WithLine(Top(stack), num)]) == Below(stack);
  }

  lemma {:induction false} ParseFits(lines: seq<string>, n: nat)
    requires n <= |lines|
    ensures StackFits(Parse(lines, n), n)
  {
    if n > 0 {
      ParseFits(lines, n - 1);
      StepFits(Parse(lines, n - 1), n, lines[n - 1]);
    } else {
      assert Fits(ROOT);
    }
  }

  lemma {:induction false} CloseAllFits(stack: seq<Node>, end: nat)
    requires stack != [] && StackFits(stack, end)
    ensures FitsTo(CloseAll(stack, end), end)
    decreases |stack|
  {
    if |stack| > 1 {
      PopFits(stack, end, end);
      CloseAllFits(Pop(stack, end), end);
    }
  }

  /** Whatever the braces, the stanzas are ordered, disjoint and inside the file. */
  lemma StanzasFit(lines: seq<string>)
    ensures InOrder(Stanzas(lines))
    ensures forall k :: 0 <= k < |Stanzas(lines)| ==>
              Fits(Stanzas(lines)[k]) && 0 < Stanzas(lines)[k].start && Stanzas(lines)[k].end <= |lines|
  {
    ParseFits(lines, |lines|);
    CloseAllFits(Parse(lines, |lines|), |lines|);
    var root := CloseAll(Parse(lines, |lines|), |lines|).(end := |lines|);
    forall k: nat | k < |root.kids|
      ensures Fits(root.kids[k]) && 0 < root.kids[k].start && root.kids[k].end <= |lines|
    {
      assert KidFits(root, k);
    }
  }

  // -------------------------------------------------- every statement is in the tree

  /** How many stanzas are open after n lines; a stray closing brace opens none. */
  function Depth(lines: seq<string>, n: nat): nat
    requires n <= |lines|
  {
    if n == 0 then 0
    else
      var before, raw := Depth(lines, n - 1), lines[n - 1];
      if Opens(raw) then before + 1 else if Closes(raw) && before > 0 then before - 1 else before
  }

  /** A statement inside some stanza. */
  predicate Leaf(lines: seq<string>, j: nat) {
    0 < j <= |lines| && Plain(lines[j - 1]) && Depth(lines, j - 1) > 0
  }

  ghost predicate Holds(n: Node, j: nat) {
    j in n.direct || exists k :: 0 <= k < |n.kids| && Holds(n.kids[k], j)
  }

  ghost predicate SomeKidHolds(kids: seq<Node>, j: nat) {
    exists k :: 0 <= k < |kids| && Holds(kids[k], j)
  }

  ghost predicate StackHolds(stack: seq<Node>, j: nat)
    requires stack != []
    decreases |stack|
  {
    if |stack| == 1 then SomeKidHolds(stack[0].kids, j) else Holds(Top(stack), j) || StackHolds(Below(stack), j)
  }

  lemma KidHeld(n: Node, kid: Node, end: nat, j: nat)
    ensures SomeKidHolds(WithKid(n, kid.(end := end)).kids, j) <==> SomeKidHolds(n.kids, j) || Holds(kid, j)
    ensures Holds(WithKid(n, kid.(end := end)), j) <==> Holds(n, j) || Holds(kid, j)
  {
    var closed := kid.(end := end);
    var more := n.kids + [closed];
    assert Holds(closed, j) <==> Holds(kid, j);
    if SomeKidHolds(n.kids, j) {
      var k :| 0 <= k < |n.kids| && Holds(n.kids[k], j);
      assert Holds(more[k], j);
    }
    if Holds(kid, j) { assert Holds(more[|n.kids|], j); }
    assert Holds(n, j) <==> j in n.direct || SomeKidHolds(n.kids, j);
    assert Holds(WithKid(n, closed), j) <==> j in n.direct || SomeKidHolds(more, j);
  }

  lemma PopHolds(stack: seq<Node>, end: nat, j: nat)
    requires |stack| > 1
    ensures StackHolds(Pop(stack, end), j) <==> StackHolds(stack, j)
  {
    var rest := Below(stack);
    KidHeld(Top(rest), Top(stack), end, j);
    assert Below(Pop(stack, end)) == Below(rest);
  }

  lemma LineHeld(n: Node, num: nat, j: nat)
    ensures Holds(WithLine(n, num), j) <==> Holds(n, j) || j == num
  {
    assert Holds(n, j) <==> j in n.direct || SomeKidHolds(n.kids, j);
    assert Holds(WithLine(n, num), j) <==> j in n.direct + [num] || SomeKidHolds(n.kids, j);
  }

  lemma StepHolds(stack: seq<Node>, num: nat, raw: string, j: nat)
    requires stack != []
    ensures StackHolds(Step(stack, num, raw), j) <==>
              StackHolds(stack, j) || (j == num && |stack| > 1 && Plain(raw))
  {
    if Ignored(raw) {
    } else if Opens(raw) {
      assert Below(stack + [Opened(num, raw)]) == stack;
      assert !Holds(Opened(num, raw), j);
    } else if Closes(raw) && |stack| > 1 {
      PopHolds(stack, num, j);
    } else {
      LineHeld(Top(stack), num, j);
      assert Below(Below(stack) + [WithLine(Top(stack), num)]) == Below(stack);
    }
  }

  lemma {:induction false} DepthIsStack(lines: seq<string>, n: nat)
    requires n <= |lines|
    ensures |Parse(lines, n)| == Depth(lines, n) + 1
  {
    if n > 0 { DepthIsStack(lines, n - 1); }
  }

  lemma {:induction false} ParseHolds(lines: seq<string>, n: nat, j: nat)
    requires n <= |lines|
    ensures StackHolds(Parse(lines, n), j) <==> j <= n && Leaf(lines, j)
  {
    if n > 0 {
      ParseHolds(lines, n - 1, j);
      NextHolds(lines, n, j);
    }
  }

  lemma NextHolds(lines: seq<string>, n: nat, j: nat)
    requires 0 < n <= |lines|
    ensures StackHolds(Parse(lines, n), j) <==> StackHolds(Parse(lines, n - 1), j) || (j == n && Leaf(lines, n))
  {
    hide StackHolds, Step, Plain;
    DepthIsStack(lines, n - 1);
    StepHolds(Parse(lines, n - 1), n, lines[n - 1], j);
  }

  lemma {:induction false} CloseAllHolds(stack: seq<Node>, end: nat, j: nat)
    requires stack != []
    ensures SomeKidHolds(CloseAll(stack, end).kids, j) <==> StackHolds(stack, j)
    decreases |stack|
  {
    if |stack| > 1 {
      PopHolds(stack, end, j);
      CloseAllHolds(Pop(stack, end), end, j);
    }
  }

  /** The tree holds exactly the statements at depth one and more, balanced braces or not. */
  lemma StanzasHoldLeaves(lines: seq<string>, j: nat)
    ensures SomeKidHolds(Stanzas(lines), j) <==> Leaf(lines, j)
  {
    ParseHolds(lines, |lines|, j);
    CloseAllHolds(Parse(lines, |lines|), |lines|, j);
  }

  // -------------------------------------------------- statements outside every stanza

  lemma StepRoot(stack: seq<Node>, num: nat, raw: string)
    requires stack != []
    ensures Step(stack, num, raw)[0].direct ==
            if |stack| == 1 && (Plain(raw) || Closes(raw)) then stack[0].direct + [num] else stack[0].direct
  {
  }

  /** The root keeps the statements at depth zero for itself. */
  lemma {:induction false} RootLines(lines: seq<string>, n: nat, j: nat)
    requires n <= |lines| && 0 < j <= n && Plain(lines[j - 1]) && Depth(lines, j - 1) == 0
    ensures j in Parse(lines, n)[0].direct
  {
    hide Step, Depth, Plain, Closes;
    DepthIsStack(lines, n - 1);
    StepRoot(Parse(lines, n - 1), n, lines[n - 1]);
    if j < n {
      RootLines(lines, n - 1, j);
    }
  }

  lemma {:induction false} CloseAllRoot(stack: seq<Node>, end: nat)
    requires stack != []
    ensures CloseAll(stack, end).direct == stack[0].direct
    decreases |stack|
  {
    if |stack| > 1 {
      CloseAllRoot(Pop(stack, end), end);
    }
  }

  /** A statement at depth zero lies beside every top-level stanza. */
  lemma OutsideIsBeside(lines: seq<string>, j: nat)
    requires 0 < j <= |lines| && Plain(lines[j - 1]) && Depth(lines, j - 1) == 0
    ensures Beside(j, Stanzas(lines))
  {
    RootLines(lines, |lines|, j);
    ParseFits(lines, |lines|);
    CloseAllFits(Parse(lines, |lines|), |lines|);
    CloseAllRoot(Parse(lines, |lines|), |lines|);
    var root := CloseAll(Parse(lines, |lines|), |lines|).(end := |lines|);
    assert LineFits(root, j);
  }
}
