/** `_bound_gaps`: the gap rewriting as it is done, on the text of a pattern, and its
    agreement with the rewriting of the parse tree (classifier.py). `Print` is the pattern text
    of a tree; the scanner only ever sees that text. */
module GapBound {
  import opened Options
  import opened Regex

  // ------------------------------------------------------------ pattern text

  /** The characters `re.escape` puts a backslash before. */
  predicate IsSpecial(c: char) {
    c in "()[]{}?*+-|^$\\.&~# \t\n\r\U{0B}\U{0C}"
  }

  function Escaped(c: char): string {
    if IsSpecial(c) then ['\\', c] else [c]
  }

  function EscapedAll(cs: seq<char>): string {
    if cs == [] then "" else Escaped(cs[0]) + EscapedAll(cs[1..])
  }

  function Digits(n: nat): string {
    if n < 10 then ['0' + n as char] else Digits(n / 10) + ['0' + (n % 10) as char]
  }

  function Quantifier(least: nat, most: Option<nat>): string {
    if least == 0 && most.None? then "*"
    else "{" + Digits(least) + "," + (if most.Some? then Digits(most.value) else "") + "}"
  }

  function AnchorText(a: Anchor): string {
    match a
    case TextStart => "^"
    case TextEnd => "$"
    case WordEdge => "\\b"
    case NoWordEdge => "\\B"
  }

  function LookOpening(ahead: bool, negative: bool): string {
    (if ahead then "(?" else "(?<") + if negative then "!" else "="
  }

  /** How characters and classes are spelled: what stands for a character, and what follows the
      opening bracket of a class. */
  datatype Spelling = Spelling(ofChar: char -> string, ofClass: (seq<char>, bool) -> string)

  /** One character, or anything behind a backslash. */
  predicate CharText(x: string) {
    (|x| == 1 && x[0] !in "\\[.*") || (|x| == 2 && x[0] == '\\')
  }

  /** The first bare closing bracket is the last character. */
  predicate ClassText(x: string)
    decreases |x|
  {
    |x| > 0 && if x[0] == '\\' then |x| > 1 && ClassText(x[2..])
               else if x[0] == ']' then |x| == 1
               else ClassText(x[1..])
  }

  ghost predicate Spells(sp: Spelling) {
    (forall c :: CharText(sp.ofChar(c))) && forall members, negated :: ClassText(sp.ofClass(members, negated))
  }

  /** A text of a parse tree. Parsers only produce classes and branches with something in them and
      bounds in order; other trees print to texts that stand for nothing. */
  function Print(sp: Spelling, p: Pattern): string {
    match p
    case End => ""
    case Then(item, rest) => PrintItem(sp, item) + Print(sp, rest)
  }

  function PrintItem(sp: Spelling, item: Item): string {
    match item
    case Lit(c) => sp.ofChar(c)
    case Any => "."
    case Class(members, negated) => "[" + sp.ofClass(members, negated)
    case Group(body) => "(" + Print(sp, body) + ")"
    case Branch(alts) => "(?:" + PrintAlts(sp, alts) + ")"
    case Repeat(least, most, body) =>
      (if body == GAP then "." else "(?:" + Print(sp, body) + ")") + Quantifier(least, most)
    case At(anchor) => AnchorText(anchor)
    case Look(ahead, negative, body) => LookOpening(ahead, negative) + Print(sp, body) + ")"
  }

  function PrintAlts(sp: Spelling, alts: Alternatives): string {
    match alts
    case NoMore => ""
    case Alt(first, NoMore) => Print(sp, first)
    case Alt(first, more) => Print(sp, first) + "|" + PrintAlts(sp, more)
  }

  // ------------------------------------------------------------- the scanner

  /** What the scanner still writes from s on, inside or outside a [character class]. */
  function Rewrite(s: string, inClass: bool, limit: nat): string
    decreases |s|
  {
    if |s| == 0 then ""
    else if s[0] == '\\' then
      if |s| == 1 then s else s[..2] + Rewrite(s[2..], inClass, limit)
    else if inClass then [s[0]] + Rewrite(s[1..], s[0] != ']', limit)
    else if s[0] == '[' then [s[0]] + Rewrite(s[1..], true, limit)
    else if s[0] == '.' && |s| > 1 && s[1] == '*' then ".{0," + Digits(limit) + "}" + Rewrite(s[2..], false, limit)
    else [s[0]] + Rewrite(s[1..], false, limit)
  }

  /** One turn of the scanner: what it writes, how far it moves, and the class flag after. */
  function Turn(s: string, inClass: bool, limit: nat): (string, nat, bool)
    requires |s| > 0
  {
    if s[0] == '\\' then (if |s| == 1 then s else s[..2], if |s| == 1 then 1 else 2, inClass)
    else if inClass then ([s[0]], 1, s[0] != ']')
    else if s[0] == '[' then ([s[0]], 1, true)
    else if s[0] == '.' && |s| > 1 && s[1] == '*' then (".{0," + Digits(limit) + "}", 2, false)
    else ([s[0]], 1, false)
  }

  lemma TurnStep(s: string, inClass: bool, limit: nat, out: string)
    requires |s| > 0
    ensures var (w, n, c) := Turn(s, inClass, limit);
            n <= |s| && out + Rewrite(s, inClass, limit) == (out + w) + Rewrite(s[n..], c, limit)
  {
    if s[0] == '\\' && |s| == 1 {
      assert s[1..] == "";
    }
  }

  method BoundGaps(pattern: string, limit: nat) returns (out: string)
    ensures out == Rewrite(pattern, false, limit)
  {
    out := "";
    var i, inClass := 0, false;
    while i < |pattern|
      invariant i <= |pattern|
      invariant out + Rewrite(pattern[i..], inClass, limit) == Rewrite(pattern, false, limit)
    {
      var ch := pattern[i];
      ghost var rest := pattern[i..];
      TurnStep(rest, inClass, limit, out);
      ghost var turn := Turn(rest, inClass, limit);
      assert rest[turn.1..] == pattern[i + turn.1..];
      if ch == '\\' {
        var upto := if i + 2 <= |pattern| then i + 2 else |pattern|;
        assert pattern[i..upto] == turn.0;
        out := out + pattern[i..upto];
        i := upto;
      } else if inClass {
        inClass := ch != ']';
        out := out + [ch];
        i := i + 1;
      } else if ch == '[' {
        inClass := true;
        out := out + [ch];
        i := i + 1;
      } else if ch == '.' && i + 1 < |pattern| && pattern[i + 1] == '*' {
        out := out + (".{0," + Digits(limit) + "}");
        i := i + 2;
      } else {
        out := out + [ch];
        i := i + 1;
      }
    }
  }

  // -------------------------------------------------- text and tree agree

  /** x is rewritten to y in front of t, whatever has been written before. */
  ghost predicate TurnsInto(x: string, y: string, t: string, limit: nat) {
    Rewrite(x + t, false, limit) == y + Rewrite(t, false, limit)
  }

  lemma Compose(a: string, a': string, b: string, b': string, t: string, limit: nat)
    requires TurnsInto(a, a', b + t, limit) && TurnsInto(b, b', t, limit)
    ensures TurnsInto(a + b, a' + b', t, limit)
  {
    assert (a + b) + t == a + (b + t);
    assert (a' + b') + Rewrite(t, false, limit) == a' + (b' + Rewrite(t, false, limit));
  }

  /** Nothing the scanner reacts to. */
  predicate IsPlain(w: string) {
    forall i :: 0 <= i < |w| ==> w[i] != '\\' && w[i] != '[' && w[i] != '.'
  }

  lemma {:induction false} PlainStays(w: string, t: string, limit: nat)
    requires IsPlain(w)
    ensures Rewrite(w + t, false, limit) == w + Rewrite(t, false, limit)
  {
    if w == "" {
      assert w + t == t;
    } else {
      assert (w + t)[1..] == w[1..] + t;
      PlainStays(w[1..], t, limit);
    }
  }

  lemma {:induction false} DigitsPlain(n: nat)
    ensures IsPlain(Digits(n))
  {
    if n >= 10 { DigitsPlain(n / 10); }
  }

  lemma CharStays(x: string, t: string, limit: nat)
    requires CharText(x)
    ensures Rewrite(x + t, false, limit) == x + Rewrite(t, false, limit)
  {
    var s := x + t;
    if |x| == 1 {
      assert s[1..] == t;
    } else {
      assert s[..2] == x && s[2..] == t;
    }
  }

  lemma {:induction false} ClassStays(x: string, t: string, limit: nat)
    requires ClassText(x)
    ensures Rewrite(x + t, true, limit) == x + Rewrite(t, false, limit)
    decreases |x|
  {
    var s := x + t;
    if x[0] == '\\' {
      assert s[..2] == x[..2] && s[2..] == x[2..] + t;
      ClassStays(x[2..], t, limit);
      Regroup(x[..2], x[2..], Rewrite(t, false, limit));
      assert x == x[..2] + x[2..];
    } else if x[0] == ']' {
      assert s[1..] == t;
    } else {
      assert s[1..] == x[1..] + t;
      ClassStays(x[1..], t, limit);
      Regroup([x[0]], x[1..], Rewrite(t, false, limit));
      assert x == [x[0]] + x[1..];
    }
  }

  lemma Regroup(a: string, b: string, c: string)
    ensures (a + b) + c == a + (b + c)
  {
  }

  function EscapedClass(members: seq<char>, negated: bool): string {
    (if negated then "^" else "") + EscapedAll(members) + "]"
  }

  /** Escaping every special character is such a spelling, for any characters and classes. */
  const ESCAPED := Spelling(Escaped, EscapedClass)

  lemma {:induction false} EscapedAllCloses(cs: seq<char>)
    ensures ClassText(EscapedAll(cs) + "]")
  {
    if cs != [] {
      EscapedAllCloses(cs[1..]);
      var rest := EscapedAll(cs[1..]) + "]";
      assert EscapedAll(cs) + "]" == Escaped(cs[0]) + rest;
      var x := Escaped(cs[0]) + rest;
      if IsSpecial(cs[0]) { assert x[2..] == rest; } else { assert x[1..] == rest; }
    }
  }

  lemma EscapedSpells()
    ensures Spells(ESCAPED)
  {
    forall members, negated ensures ClassText(EscapedClass(members, negated)) {
      EscapedAllCloses(members);
      var x := EscapedAll(members) + "]";
      assert EscapedClass(members, false) == x;
      assert EscapedClass(members, true) == "^" + x && ("^" + x)[1..] == x;
    }
  }

  /** A text that cannot turn a preceding dot into a gap. */
  predicate NoStar(t: string) {
    t == "" || t[0] != '*'
  }

  lemma PrintedNoStar(sp: Spelling, p: Pattern, t: string)
    requires NoStar(t) && Spells(sp)
    ensures NoStar(Print(sp, p) + t)
  {
    if p.Then? {
      ItemNoStar(sp, p.item);
    }
  }

  lemma ItemNoStar(sp: Spelling, item: Item)
    requires Spells(sp)
    ensures PrintItem(sp, item) != "" && PrintItem(sp, item)[0] != '*'
  {
  }

  lemma DotStays(t: string, limit: nat)
    requires NoStar(t)
    ensures Rewrite("." + t, false, limit) == "." + Rewrite(t, false, limit)
  {
    assert ("." + t)[1..] == t;
  }

  lemma {:induction false} PrintAgrees(sp: Spelling, p: Pattern, t: string, limit: nat)
    requires NoStar(t) && Spells(sp)
    ensures TurnsInto(Print(sp, p), Print(sp, Bound(p, limit)), t, limit)
    decreases p, 0
  {
    match p
    case End =>
      assert "" + t == t;
    case Then(item, rest) =>
      PrintedNoStar(sp, rest, t);
      ItemAgrees(sp, item, Print(sp, rest) + t, limit);
      PrintAgrees(sp, rest, t, limit);
      Compose(PrintItem(sp, item), PrintItem(sp, BoundItem(item, limit)),
              Print(sp, rest), Print(sp, Bound(rest, limit)), t, limit);
  }

  lemma {:induction false} ItemAgrees(sp: Spelling, item: Item, t: string, limit: nat)
    requires NoStar(t) && Spells(sp)
    ensures TurnsInto(PrintItem(sp, item), PrintItem(sp, BoundItem(item, limit)), t, limit)
    decreases item, 1
  {
    match item
    case Lit(c) =>
      CharStays(sp.ofChar(c), t, limit);
    case Any =>
      DotStays(t, limit);
    case Class(members, negated) =>
      ClassStays(sp.ofClass(members, negated), t, limit);
      ClassOpens(sp.ofClass(members, negated), t, limit);
    case Group(body) =>
      WrappedAgrees(sp, "(", body, ")", t, limit);
    case Branch(alts) =>
      AltsAgree(sp, alts, ")" + t, limit);
      BranchAgrees(PrintAlts(sp, alts), PrintAlts(sp, BoundAlts(alts, limit)), t, limit);
      assert PrintItem(sp, item) == "(?:" + (PrintAlts(sp, alts) + ")");
      assert PrintItem(sp, BoundItem(item, limit)) == "(?:" + (PrintAlts(sp, BoundAlts(alts, limit)) + ")");
    case Repeat(least, most, body) =>
      RepeatAgrees(sp, least, most, body, t, limit);
    case At(anchor) =>
      AnchorStays(anchor, t, limit);
    case Look(ahead, negative, body) =>
      WrappedAgrees(sp, LookOpening(ahead, negative), body, ")", t, limit);
  }

  lemma BranchAgrees(x: string, y: string, t: string, limit: nat)
    requires TurnsInto(x, y, ")" + t, limit)
    ensures TurnsInto("(?:" + (x + ")"), "(?:" + (y + ")"), t, limit)
  {
    PlainStays(")", t, limit);
    PlainStays("(?:", (x + ")") + t, limit);
    hide Rewrite;
    Compose(x, y, ")", ")", t, limit);
    Compose("(?:", "(?:", x + ")", y + ")", t, limit);
  }

  lemma AnchorStays(a: Anchor, t: string, limit: nat)
    ensures Rewrite(AnchorText(a) + t, false, limit) == AnchorText(a) + Rewrite(t, false, limit)
  {
    var s := AnchorText(a) + t;
    if |AnchorText(a)| == 2 {
      assert s[..2] == AnchorText(a) && s[2..] == t;
    } else {
      assert s[1..] == t;
    }
  }

  lemma ClassOpens(x: string, t: string, limit: nat)
    requires Rewrite(x + t, true, limit) == x + Rewrite(t, false, limit)
    ensures TurnsInto("[" + x, "[" + x, t, limit)
  {
    hide Rewrite;
    OpenBracket(x + t, limit);
    assert ("[" + x) + t == "[" + (x + t);
    assert "[" + (x + Rewrite(t, false, limit)) == ("[" + x) + Rewrite(t, false, limit);
  }

  lemma OpenBracket(u: string, limit: nat)
    ensures Rewrite("[" + u, false, limit) == "[" + Rewrite(u, true, limit)
  {
    assert ("[" + u)[1..] == u;
  }

  lemma {:induction false} WrappedAgrees(sp: Spelling, open: string, body: Pattern, close: string, t: string,
                                         limit: nat)
    requires IsPlain(open) && IsPlain(close) && close != "" && close[0] != '*' && Spells(sp)
    ensures TurnsInto(open + Print(sp, body) + close, open + Print(sp, Bound(body, limit)) + close, t, limit)
    decreases body, 1
  {
    PrintAgrees(sp, body, close + t, limit);
    PlainStays(open, Print(sp, body) + (close + t), limit);
    Compose(open, open, Print(sp, body), Print(sp, Bound(body, limit)), close + t, limit);
    PlainStays(close, t, limit);
    Compose(open + Print(sp, body), open + Print(sp, Bound(body, limit)), close, close, t, limit);
  }

  lemma QuantifierPlain(least: nat, most: Option<nat>)
    ensures IsPlain(Quantifier(least, most)) && Quantifier(least, most) != ""
    ensures Quantifier(least, most)[0] == '*' <==> least == 0 && most.None?
  {
    DigitsPlain(least);
    if most.Some? { DigitsPlain(most.value); }
  }

  /** The gap itself: `.*` turns into the bounded repeat. */
  lemma GapAgrees(t: string, limit: nat)
    ensures TurnsInto("." + Quantifier(0, None), "." + Quantifier(0, Some(limit)), t, limit)
  {
    var s := "." + "*" + t;
    assert s[0] == '.' && s[1] == '*' && s[2..] == t;
    assert Digits(0) == "0";
    assert "." + Quantifier(0, Some(limit)) == ".{0," + Digits(limit) + "}";
  }

  lemma {:induction false} RepeatAgrees(sp: Spelling, least: nat, most: Option<nat>, body: Pattern, t: string,
                                        limit: nat)
    requires NoStar(t) && Spells(sp)
    ensures var item := Repeat(least, most, body);
            TurnsInto(PrintItem(sp, item), PrintItem(sp, BoundItem(item, limit)), t, limit)
    decreases body, 2
  {
    var q := Quantifier(least, most);
    QuantifierPlain(least, most);
    PlainStays(q, t, limit);
    if body == GAP && least == 0 && most.None? {
      GapAgrees(t, limit);
    } else if body == GAP {
      DotStays(q + t, limit);
      Compose(".", ".", q, q, t, limit);
      assert Bound(GAP, limit) == GAP;
    } else {
      BoundNotGap(body, limit);
      WrappedAgrees(sp, "(?:", body, ")", q + t, limit);
      Compose("(?:" + Print(sp, body) + ")", "(?:" + Print(sp, Bound(body, limit)) + ")", q, q, t, limit);
    }
  }

  lemma BoundNotGap(p: Pattern, limit: nat)
    requires p != GAP
    ensures Bound(p, limit) != GAP
  {
  }

  lemma {:induction false} AltsAgree(sp: Spelling, alts: Alternatives, t: string, limit: nat)
    requires NoStar(t) && Spells(sp)
    ensures TurnsInto(PrintAlts(sp, alts), PrintAlts(sp, BoundAlts(alts, limit)), t, limit)
    decreases alts, 1
  {
    match alts
    case NoMore =>
      assert "" + t == t;
    case Alt(first, NoMore) =>
      PrintAgrees(sp, first, t, limit);
    case Alt(first, more) =>
      AltsAgree(sp, more, t, limit);
      PlainStays("|", PrintAlts(sp, more) + t, limit);
      PrintAgrees(sp, first, "|" + (PrintAlts(sp, more) + t), limit);
      Compose(Print(sp, first), Print(sp, Bound(first, limit)), "|", "|", PrintAlts(sp, more) + t, limit);
      Compose(Print(sp, first) + "|", Print(sp, Bound(first, limit)) + "|",
              PrintAlts(sp, more), PrintAlts(sp, BoundAlts(more, limit)), t, limit);
  }

  /** Rewriting the text of a pattern is printing the tree with its gaps bounded, however its
      characters and classes are spelled, as long as the first bare bracket closes a class. */
  lemma GapRewriteAgrees(sp: Spelling, p: Pattern, limit: nat)
    requires Spells(sp)
    ensures Rewrite(Print(sp, p), false, limit) == Print(sp, Bound(p, limit))
  {
    PrintAgrees(sp, p, "", limit);
    assert Print(sp, p) + "" == Print(sp, p);
  }

  // ------------------------------------------- classes on texts that are not printed

  /** How far a parser is into a character class: a bracket that closes nothing yet, because it
      comes first, is a member. */
  datatype ClassState = Outside | Opened | Negated | Inside

  function Next(state: ClassState, c: char): ClassState {
    match state
    case Outside => if c == '[' then Opened else Outside
    case Opened => if c == '^' then Negated else Inside
    case Negated => Inside
    case Inside => if c == ']' then Outside else Inside
  }

  function AfterEscape(state: ClassState): ClassState {
    if state.Outside? then Outside else Inside
  }

  /** The scanner's own flag. */
  function NextFlag(inClass: bool, c: char): bool {
    if inClass then c != ']' else c == '['
  }

  predicate StartsGap(s: string) {
    |s| > 1 && s[0] == '.' && s[1] == '*'
  }

  /** The rewriting that leaves alone exactly what a parser takes for a character class. */
  function RewriteAsParsed(s: string, state: ClassState, limit: nat): string
    decreases |s|
  {
    if |s| == 0 then ""
    else if s[0] == '\\' then
      if |s| == 1 then s else s[..2] + RewriteAsParsed(s[2..], AfterEscape(state), limit)
    else if state.Outside? && StartsGap(s) then ".{0," + Digits(limit) + "}" + RewriteAsParsed(s[2..], Outside, limit)
    else [s[0]] + RewriteAsParsed(s[1..], Next(state, s[0]), limit)
  }

  /** At every unescaped gap the scanner and the parser agree whether it is in a class. */
  predicate FlagsAgree(s: string, inClass: bool, state: ClassState)
    decreases |s|
  {
    if |s| == 0 then true
    else if s[0] == '\\' then |s| == 1 || FlagsAgree(s[2..], inClass, AfterEscape(state))
    else if StartsGap(s) && inClass == state.Outside? then false
    else if StartsGap(s) && !inClass then FlagsAgree(s[2..], false, Outside)
    else FlagsAgree(s[1..], NextFlag(inClass, s[0]), Next(state, s[0]))
  }

  lemma SameTails(w: string, a: string, b: string)
    ensures w + a == w + b <==> a == b
  {
    if w + a == w + b {
      assert (w + a)[|w|..] == a && (w + b)[|w|..] == b;
    }
  }

  lemma {:induction false} ScannedAsParsed(s: string, inClass: bool, state: ClassState, limit: nat)
    ensures Rewrite(s, inClass, limit) == RewriteAsParsed(s, state, limit) <==> FlagsAgree(s, inClass, state)
    decreases |s|
  {
    if |s| > 0 {
      if s[0] == '\\' {
        if |s| > 1 {
          ScannedAsParsed(s[2..], inClass, AfterEscape(state), limit);
          SameTails(s[..2], Rewrite(s[2..], inClass, limit), RewriteAsParsed(s[2..], AfterEscape(state), limit));
        }
      } else if StartsGap(s) && inClass == state.Outside? {
        GapTornApart(s, inClass, state, limit);
      } else if StartsGap(s) && !inClass {
        ScannedAsParsed(s[2..], false, Outside, limit);
        SameTails(".{0," + Digits(limit) + "}", Rewrite(s[2..], false, limit), RewriteAsParsed(s[2..], Outside, limit));
      } else {
        ScannedAsParsed(s[1..], NextFlag(inClass, s[0]), Next(state, s[0]), limit);
        SameTails([s[0]], Rewrite(s[1..], NextFlag(inClass, s[0]), limit),
                  RewriteAsParsed(s[1..], Next(state, s[0]), limit));
      }
    }
  }

  /** Where they disagree one writes the bounded repeat and the other the gap as it stands. */
  lemma GapTornApart(s: string, inClass: bool, state: ClassState, limit: nat)
    requires StartsGap(s) && inClass == state.Outside?
    ensures Rewrite(s, inClass, limit) != RewriteAsParsed(s, state, limit)
  {
    var scanned, parsed := Rewrite(s, inClass, limit), RewriteAsParsed(s, state, limit);
    if inClass {
      assert scanned == [s[0]] + Rewrite(s[1..], true, limit);
      assert Rewrite(s[1..], true, limit)[0] == '*';
      assert scanned[1] == '*' && parsed[1] == '{';
    } else {
      assert parsed == [s[0]] + RewriteAsParsed(s[1..], Next(state, s[0]), limit);
      assert RewriteAsParsed(s[1..], Next(state, s[0]), limit)[0] == '*';
      assert scanned[1] == '{' && parsed[1] == '*';
    }
  }

  /** The scanner leaves alone exactly the character classes of a pattern text if and only if the
      two agree at each of its gaps. */
  lemma ClassesLeftAloneIff(pattern: string, limit: nat)
    ensures Rewrite(pattern, false, limit) == RewriteAsParsed(pattern, Outside, limit) <==>
              FlagsAgree(pattern, false, Outside)
  {
    ScannedAsParsed(pattern, false, Outside, limit);
  }

  /** No class starts with a bare closing bracket. */
  predicate NoBareBracket(s: string, state: ClassState)
    decreases |s|
  {
    if |s| == 0 then true
    else if s[0] == '\\' then |s| == 1 || NoBareBracket(s[2..], AfterEscape(state))
    else !((state.Opened? || state.Negated?) && s[0] == ']') && NoBareBracket(s[1..], Next(state, s[0]))
  }

  /** On such texts they always agree. */
  lemma {:induction false} NoBareBracketAgrees(s: string, state: ClassState)
    requires NoBareBracket(s, state)
    ensures FlagsAgree(s, !state.Outside?, state)
    decreases |s|
  {
    if |s| > 0 {
      if s[0] == '\\' {
        if |s| > 1 { NoBareBracketAgrees(s[2..], AfterEscape(state)); }
      } else if StartsGap(s) && state.Outside? {
        assert s[1..][1..] == s[2..];
        NoBareBracketAgrees(s[2..], Outside);
      } else {
        NoBareBracketAgrees(s[1..], Next(state, s[0]));
      }
    }
  }

  /** A class that starts with a bare closing bracket has its gap rewritten. */
  lemma BareBracketRewritten(limit: nat)
    ensures RewriteAsParsed("[].*]", Outside, limit) == "[].*]"
    ensures Rewrite("[].*]", false, limit) != "[].*]"
  {
    var s := "[].*]";
    assert s[1..] == "].*]" && s[1..][1..] == ".*]";
    assert s[1..][1..][1..] == "*]" && s[1..][1..][1..][1..] == "]";
    assert s[1..][1..][1..][1..][1..] == "";
    assert RewriteAsParsed("]", Inside, limit) == "]";
    assert RewriteAsParsed("*]", Inside, limit) == "*]";
    assert RewriteAsParsed(".*]", Inside, limit) == ".*]";
    assert RewriteAsParsed("].*]", Opened, limit) == "].*]";
    assert !FlagsAgree(".*]", false, Inside);
    assert !FlagsAgree("].*]", true, Opened);
    ScannedAsParsed(s, false, Outside, limit);
  }
}
