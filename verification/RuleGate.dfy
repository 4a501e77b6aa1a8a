/** The gate over the rule table: keyword search, candidate index and its cache, and the
    first-match loop that uses them (classifier.py). */
module RuleGate {
  import opened Options
  import opened Regex
  import opened LiteralGate
  import opened Ordering

  const GAP_CHARS: nat := 300
  const CACHE_MAX: nat := 4096
  const MAX_MATCH_CHARS: nat := 4096
  const HEAD_CHARS: nat := 3072

  /** The literals that gate a rule; None means the rule is always checked. */
  function Guard(p: Pattern): Option<Literals> {
    var lits := Guaranteed(p);
    if Useful(lits) && (forall w :: w in lits.value ==> |w| >= 3) then lits else None
  }

  /** w is one of the literals that gate rule k */
  ghost predicate Gates(table: seq<Pattern>, k: nat, w: string) {
    k < |table| && Guard(table[k]).Some? && w in Guard(table[k]).value
  }

  /** Without one of its literals a guarded rule cannot match, although what runs is the
      gap-bounded pattern and the literals come from the unbounded one. */
  lemma GuardSound(p: Pattern, s: string)
    requires IsLowercase(s) && Guard(p).Some? && Finds(Bound(p, GAP_CHARS), s)
    ensures exists w :: w in Guard(p).value && Occurs(w, s)
  {
    var i: nat, j: nat :| Matches(Bound(p, GAP_CHARS), s, i, j);
    GuaranteedSound(p, GAP_CHARS, s, i, j);
    MatchIsSpan(Bound(p, GAP_CHARS), s, i, j);
    OneOccursWider(Guard(p).value, s, i, j, 0, |s|);
  }

  // ------------------------------------------------- candidates and verdicts

  /** Rule k must be tried on a text that contains exactly these gate literals. */
  predicate IsCandidate(table: seq<Pattern>, present: Literals, k: nat)
    requires k < |table|
  {
    Guard(table[k]).None? || exists w :: w in Guard(table[k]).value && w in present
  }

  /** The candidate rules below n, in table order. */
  function Candidates(table: seq<Pattern>, present: Literals, n: nat): (r: seq<nat>)
    requires n <= |table|
    ensures forall k :: k in r ==> k < n
  {
    if n == 0 then []
    else Candidates(table, present, n - 1) + if IsCandidate(table, present, n - 1) then [n - 1] else []
  }

  /** The first rule of a list that matches: the verdict of the classification loop. */
  ghost function FirstMatch(table: seq<Pattern>, ids: seq<nat>, s: string): Option<nat>
    requires forall k :: k in ids ==> k < |table|
  {
    if |ids| == 0 then None
    else
      assert ids[0] in ids && forall k :: k in ids[1..] ==> k in ids;
      if Finds(Bound(table[ids[0]], GAP_CHARS), s) then Some(ids[0])
      else FirstMatch(table, ids[1..], s)
  }

  function AllRules(n: nat): (r: seq<nat>)
    ensures forall k :: k in r ==> k < n
  {
    if n == 0 then [] else AllRules(n - 1) + [n - 1]
  }

  lemma {:induction false} AllRulesAre(n: nat)
    ensures Ascending(AllRules(n)) && forall k: nat :: k < n ==> k in AllRules(n)
  {
    if n > 0 {
      AllRulesAre(n - 1);
      var before := AllRules(n - 1);
      assert forall i :: 0 <= i < |before| ==> before[i] in before;
    }
  }

  lemma {:induction false} FirstMatchAppend(table: seq<Pattern>, ids: seq<nat>, more: seq<nat>, s: string)
    requires forall k :: k in ids + more ==> k < |table|
    ensures (forall k :: k in ids ==> k < |table|) && (forall k :: k in more ==> k < |table|)
    ensures FirstMatch(table, ids + more, s) ==
            if FirstMatch(table, ids, s).Some? then FirstMatch(table, ids, s) else FirstMatch(table, more, s)
  {
    assert forall k :: k in ids ==> k in ids + more;
    assert forall k :: k in more ==> k in ids + more;
    if ids == [] {
      assert ids + more == more;
    } else {
      assert (ids + more)[1..] == ids[1..] + more;
      assert forall k :: k in ids[1..] + more ==> k in ids + more;
      FirstMatchAppend(table, ids[1..], more, s);
    }
  }

  /** Dropping the rules whose literals are absent changes no verdict. */
  lemma {:induction false} GateKeepsVerdict(table: seq<Pattern>, present: Literals, s: string, n: nat)
    requires IsLowercase(s) && n <= |table|
    requires forall k, w :: 0 <= k < |table| && Guard(table[k]).Some? && w in Guard(table[k]).value && Occurs(w, s) ==>
               w in present
    ensures FirstMatch(table, Candidates(table, present, n), s) == FirstMatch(table, AllRules(n), s)
  {
    if n > 0 {
      GateKeepsVerdict(table, present, s, n - 1);
      var last := n - 1;
      if !IsCandidate(table, present, last) {
        DroppedCannotMatch(table, present, s, last);
      }
      hide Finds, Occurs, IsCandidate, Guard, IsLowercase, FirstMatch;
      VerdictOfOne(table, last, s);
      FirstMatchAppend(table, AllRules(last), [last], s);
      if IsCandidate(table, present, last) {
        FirstMatchAppend(table, Candidates(table, present, last), [last], s);
      } else {
        assert Candidates(table, present, n) == Candidates(table, present, last);
      }
    }
  }

  lemma VerdictOfOne(table: seq<Pattern>, k: nat, s: string)
    requires k < |table|
    ensures FirstMatch(table, [k], s) == if Finds(Bound(table[k], GAP_CHARS), s) then Some(k) else None
  {
    assert [k][1..] == [];
  }

  lemma DroppedCannotMatch(table: seq<Pattern>, present: Literals, s: string, k: nat)
    requires IsLowercase(s) && k < |table| && !IsCandidate(table, present, k)
    requires forall k, w :: 0 <= k < |table| && Guard(table[k]).Some? && w in Guard(table[k]).value && Occurs(w, s) ==>
               w in present
    ensures !Finds(Bound(table[k], GAP_CHARS), s)
  {
    if Finds(Bound(table[k], GAP_CHARS), s) {
      GuardSound(table[k], s);
    }
  }

  // ------------------------------------------------------------ keyword search

  ghost predicate Contains(lit: string, k: string) {
    Occurs(k, lit)
  }

  /** No keyword lies inside another one. */
  ghost predicate SubstringFree(keywords: set<string>) {
    forall k, l :: k in keywords && l in keywords && Contains(l, k) ==> k == l
  }

  /** `_KEYWORDS`: the gate literals with no other gate literal inside. */
  ghost function Minimal(lits: Literals): set<string> {
    set k | k in lits && !exists l :: l in lits && l != k && Contains(k, l)
  }

  lemma OccursTrans(k: string, l: string, s: string, a: nat, b: nat)
    requires OccursAt(k, l, a) && OccursAt(l, s, b)
    ensures OccursAt(k, s, b + a)
  {
    forall i | 0 <= i < |k| ensures s[b + a + i] == k[i] {
      assert l[a..a + |k|][i] == l[a + i];
      assert s[b..b + |l|][a + i] == s[b + a + i];
    }
  }

  lemma ContainsTrans(k: string, l: string, m: string)
    requires Contains(m, l) && Contains(l, k)
    ensures Contains(m, k)
  {
    var a: nat :| 0 <= a && a + |k| <= |l| && OccursAt(k, l, a);
    var b: nat :| 0 <= b && b + |l| <= |m| && OccursAt(l, m, b);
    OccursTrans(k, l, m, a, b);
  }

  lemma ContainsSelf(k: string)
    ensures Contains(k, k)
  {
    assert OccursAt(k, k, 0);
  }

  lemma ContainsShorter(k: string, l: string)
    requires Contains(l, k) && k != l
    ensures |k| < |l|
  {
    var a: nat :| 0 <= a && a + |k| <= |l| && OccursAt(k, l, a);
    assert l[0..|l|] == l;
  }

  lemma MinimalIsSubstringFree(lits: Literals)
    ensures SubstringFree(Minimal(lits)) && Minimal(lits) <= lits
  {
  }

  /** Every literal has a keyword inside. */
  lemma {:induction false} HasKeyword(lits: Literals, lit: string)
    requires lit in lits
    ensures exists k :: k in Minimal(lits) && Contains(lit, k)
    decreases |lit|
  {
    ContainsSelf(lit);
    if lit !in Minimal(lits) {
      var l :| l in lits && l != lit && Contains(lit, l);
      ContainsShorter(l, lit);
      HasKeyword(lits, l);
      var k :| k in Minimal(lits) && Contains(l, k);
      ContainsTrans(k, l, lit);
    }
  }

  /** Two keywords of a substring-free set never start at the same index. */
  lemma OneKeywordPerStart(keywords: set<string>, k: string, l: string, s: string, a: nat)
    requires SubstringFree(keywords) && k in keywords && l in keywords
    requires OccursAt(k, s, a) && OccursAt(l, s, a)
    ensures k == l
  {
    if |k| <= |l| {
      PrefixInside(k, l, s, a);
    } else {
      PrefixInside(l, k, s, a);
    }
  }

  lemma PrefixInside(k: string, l: string, s: string, a: nat)
    requires OccursAt(k, s, a) && OccursAt(l, s, a) && |k| <= |l|
    ensures Contains(l, k)
  {
    assert s[a..a + |l|] == l;
    assert s[a..a + |k|] == l[0..0 + |k|];
    assert OccursAt(k, l, 0);
  }

  predicate StartsAt(k: string, s: string, a: nat) {
    a + |k| <= |s| && s[a..a + |k|] == k
  }

  method IsInside(k: string, s: string) returns (b: bool)
    ensures b <==> Occurs(k, s)
  {
    b := false;
    var a := 0;
    while a + |k| <= |s|
      invariant forall x: nat :: x < a ==> !OccursAt(k, s, x)
    {
      if StartsAt(k, s, a) {
        assert OccursAt(k, s, a);
        return true;
      }
      a := a + 1;
    }
  }

  /** `_GATE_RE.search(text, pos)`: the leftmost start from pos on, and the first
      alternative that matches there. */
  method SearchAlternation(keywords: seq<string>, s: string, pos: nat) returns (hit: Option<(nat, string)>)
    ensures hit.Some? ==> pos <= hit.value.0 <= |s| && hit.value.1 in keywords && OccursAt(hit.value.1, s, hit.value.0)
    ensures forall a: nat, k :: pos <= a && (hit.Some? ==> a < hit.value.0) && k in keywords ==> !OccursAt(k, s, a)
  {
    var start := pos;
    while start <= |s|
      invariant pos <= start
      invariant forall a: nat, k :: pos <= a < start && k in keywords ==> !OccursAt(k, s, a)
    {
      var n := 0;
      while n < |keywords|
        invariant n <= |keywords| && forall m :: 0 <= m < n ==> !OccursAt(keywords[m], s, start)
      {
        if StartsAt(keywords[n], s, start) {
          return Some((start, keywords[n]));
        }
        n := n + 1;
      }
      forall k | k in keywords ensures !OccursAt(k, s, start) {
        var m :| 0 <= m < |keywords| && keywords[m] == k;
      }
      start := start + 1;
    }
    hit := None;
  }

  // ---------------------------------------------------------------- the gate

  /** Sets of Python strings sorted into a tuple of the longest first. */
  method LongestFirst(words: set<string>) returns (r: seq<string>)
    ensures forall w :: w in r <==> w in words
    ensures forall i, j :: 0 <= i < j < |r| ==> |r[i]| >= |r[j]|
  {
    r := [];
    var rest := words;
    while rest != {}
      invariant ByLength(words, r, rest)
      decreases rest
    {
      LongestExists(rest);
      var w :| w in rest && forall v :: v in rest ==> |v| <= |w|;
      NextLongest(words, r, rest, w);
      r, rest := r + [w], rest - {w};
    }
  }

  ghost predicate ByLength(words: set<string>, r: seq<string>, rest: set<string>) {
    && (forall w :: w in words <==> w in r || w in rest)
    && (forall i, w :: 0 <= i < |r| && w in rest ==> |r[i]| >= |w|)
    && (forall i, j :: 0 <= i < j < |r| ==> |r[i]| >= |r[j]|)
  }

  lemma NextLongest(words: set<string>, r: seq<string>, rest: set<string>, w: string)
    requires ByLength(words, r, rest) && w in rest && forall v :: v in rest ==> |v| <= |w|
    ensures ByLength(words, r + [w], rest - {w})
  {
  }

  lemma {:induction false} LongestExists(words: set<string>)
    requires words != {}
    ensures exists w :: w in words && forall v :: v in words ==> |v| <= |w|
  {
    var a :| a in words;
    var rest := words - {a};
    if rest == {} {
      assert words == {a};
    } else {
      LongestExists(rest);
      var b :| b in rest && forall v :: v in rest ==> |v| <= |b|;
      var best := if |a| <= |b| then b else a;
      assert forall v :: v in words ==> v == a || v in rest;
      assert best in words && forall v :: v in words ==> |v| <= |best|;
    }
  }

  /** All literals of all guarded rules. */
  ghost function GateLiterals(table: seq<Pattern>): Literals {
    set k, w | 0 <= k < |table| && Guard(table[k]).Some? && w in Guard(table[k]).value && Gates(table, k, w) :: w
  }

  /** The gate literals that occur in a text: what looking for each of them would give. */
  ghost function PresentIn(table: seq<Pattern>, s: string): Literals {
    set w | w in GateLiterals(table) && Occurs(w, s)
  }

  /** Any keyword that occurs in the text is the only one at its start. */
  lemma OnlyHit(lits: Literals, k: string, s: string, start: nat)
    requires k in Minimal(lits) && OccursAt(k, s, start)
    ensures forall l :: l in Minimal(lits) && OccursAt(l, s, start) ==> l == k
  {
    MinimalIsSubstringFree(lits);
    forall l | l in Minimal(lits) && OccursAt(l, s, start) ensures l == k {
      OneKeywordPerStart(Minimal(lits), k, l, s, start);
    }
  }

  /** Confirming the literals around each keyword found finds every literal present. */
  lemma KeywordsSuffice(lits: Literals, s: string, found: set<string>, present: Literals)
    requires forall k :: k in found <==> k in Minimal(lits) && Occurs(k, s)
    requires forall w :: w in present <==> Occurs(w, s) && exists k :: k in found && w in lits && Contains(w, k)
    ensures forall w :: w in present <==> w in lits && Occurs(w, s)
  {
    forall w | w in lits && Occurs(w, s) ensures w in present {
      HasKeyword(lits, w);
      var k :| k in Minimal(lits) && Contains(w, k);
      ContainsTrans(k, w, s);
    }
  }

  /** The literals of a set that occur in the text (plain `in` checks). */
  method Confirm(lits: set<string>, s: string) returns (r: set<string>)
    ensures forall w :: w in r <==> w in lits && Occurs(w, s)
  {
    r := {};
    var todo := lits;
    while todo != {}
      invariant todo <= lits
      invariant forall w :: w in r <==> w in lits && w !in todo && Occurs(w, s)
      decreases todo
    {
      var w :| w in todo;
      var inside := IsInside(w, s);
      if inside { r := r + {w}; }
      todo := todo - {w};
    }
  }

  function RulesOf(index: map<string, seq<nat>>, w: string): seq<nat> {
    if w in index then index[w] else []
  }

  ghost predicate IndexUpTo(table: seq<Pattern>, index: map<string, seq<nat>>, n: nat) {
    && (forall w, k: nat :: k in RulesOf(index, w) <==> k < n && Gates(table, k, w))
    && (forall w :: w in index ==> index[w] != [])
  }

  /** The loop that fills `_LITERAL_PATTERNS` and `_UNGUARDED_IDX`. */
  method IndexRules(table: seq<Pattern>) returns (index: map<string, seq<nat>>, unguarded: seq<nat>)
    ensures IndexUpTo(table, index, |table|)
    ensures unguarded == Candidates(table, {}, |table|)
  {
    index, unguarded := map[], [];
    for i := 0 to |table|
      invariant IndexUpTo(table, index, i)
      invariant unguarded == Candidates(table, {}, i)
    {
      var lits := GuaranteedLiterals(table[i]);
      if Useful(lits) && (forall w | w in lits.value :: |w| >= 3) {
        index := IndexRule(table, index, i, lits.value);
      } else {
        unguarded := unguarded + [i];
      }
    }
  }

  method IndexRule(table: seq<Pattern>, index0: map<string, seq<nat>>, i: nat, lits: Literals)
    returns (index: map<string, seq<nat>>)
    requires i < |table| && IndexUpTo(table, index0, i) && Guard(table[i]) == Some(lits)
    ensures IndexUpTo(table, index, i + 1)
  {
    index := index0;
    var todo := lits;
    while todo != {}
      invariant todo <= lits
      invariant Appended(index0, index, lits - todo, i)
      decreases todo
    {
      var w :| w in todo;
      AppendedMore(index0, index, lits - todo, i, w);
      assert lits - (todo - {w}) == lits - todo + {w};
      index := index[w := RulesOf(index, w) + [i]];
      todo := todo - {w};
    }
    assert lits - todo == lits;
    AppendedIndex(table, index0, index, lits, i);
  }

  ghost predicate Appended(index0: map<string, seq<nat>>, index: map<string, seq<nat>>, done: Literals, i: nat) {
    && (forall w :: RulesOf(index, w) == RulesOf(index0, w) + if w in done then [i] else [])
    && (forall w :: w in index ==> w in index0 || w in done)
  }

  lemma AppendedMore(index0: map<string, seq<nat>>, index: map<string, seq<nat>>, done: Literals, i: nat, w: string)
    requires Appended(index0, index, done, i) && w !in done
    ensures Appended(index0, index[w := RulesOf(index, w) + [i]], done + {w}, i)
  {
    var more := index[w := RulesOf(index, w) + [i]];
    forall v ensures RulesOf(more, v) == RulesOf(index0, v) + if v in done + {w} then [i] else [] {
      assert RulesOf(index, v) == RulesOf(index0, v) + if v in done then [i] else [];
    }
  }

  lemma AppendedIndex(table: seq<Pattern>, index0: map<string, seq<nat>>, index: map<string, seq<nat>>,
                      lits: Literals, i: nat)
    requires i < |table| && IndexUpTo(table, index0, i) && Guard(table[i]) == Some(lits)
    requires Appended(index0, index, lits, i)
    ensures IndexUpTo(table, index, i + 1)
  {
    hide RulesOf;
    forall w, k: nat ensures k in RulesOf(index, w) <==> k < i + 1 && Gates(table, k, w) {
      AppendedAt(table, index0, index, lits, i, w, k);
    }
    forall w | w in index ensures index[w] != [] {
      AppendedNonEmpty(index0, index, lits, i, w);
    }
  }

  lemma AppendedAt(table: seq<Pattern>, index0: map<string, seq<nat>>, index: map<string, seq<nat>>, lits: Literals,
                   i: nat, w: string, k: nat)
    requires i < |table| && Guard(table[i]) == Some(lits)
    requires k in RulesOf(index0, w) <==> k < i && Gates(table, k, w)
    requires RulesOf(index, w) == RulesOf(index0, w) + if w in lits then [i] else []
    ensures k in RulesOf(index, w) <==> k < i + 1 && Gates(table, k, w)
  {
    hide RulesOf;
    assert Gates(table, i, w) <==> w in lits;
  }

  lemma AppendedNonEmpty(index0: map<string, seq<nat>>, index: map<string, seq<nat>>, lits: Literals, i: nat, w: string)
    requires w in index && (w in index0 || w in lits) && (w in index0 ==> index0[w] != [])
    requires RulesOf(index, w) == RulesOf(index0, w) + if w in lits then [i] else []
    ensures index[w] != []
  {
  }

  lemma IndexKeys(table: seq<Pattern>, index: map<string, seq<nat>>)
    requires IndexUpTo(table, index, |table|)
    ensures index.Keys == GateLiterals(table)
  {
    forall w ensures w in index <==> w in GateLiterals(table) {
      if w in index {
        assert index[w][0] in RulesOf(index, w);
        assert Gates(table, index[w][0], w);
      }
      if w in GateLiterals(table) {
        var k: nat :| k < |table| && Gates(table, k, w);
        assert k in RulesOf(index, w) <==> k < |table| && Gates(table, k, w);
      }
    }
  }

  /** Pruning: a literal with another literal inside is no keyword. */
  method Prune(lits: Literals) returns (keywords: set<string>)
    ensures keywords == Minimal(lits)
  {
    keywords := {};
    var todo := lits;
    while todo != {}
      invariant todo <= lits
      invariant forall k :: k in keywords <==> k in Minimal(lits) && k !in todo
      decreases todo
    {
      var k :| k in todo;
      var inner := Inside(lits, k);
      if inner <= {k} { keywords := keywords + {k}; }
      todo := todo - {k};
    }
  }

  /** The words of a set that lie inside k. */
  method Inside(lits: set<string>, k: string) returns (r: set<string>)
    ensures forall w :: w in r <==> w in lits && Contains(k, w)
  {
    r := Confirm(lits, k);
  }

  /** The words of a set that k lies inside of. */
  method Around(lits: set<string>, k: string) returns (r: set<string>)
    ensures forall w :: w in r <==> w in lits && Contains(w, k)
  {
    r := {};
    var todo := lits;
    while todo != {}
      invariant todo <= lits
      invariant forall w :: w in r <==> w in lits && w !in todo && Contains(w, k)
      decreases todo
    {
      var w :| w in todo;
      var inside := IsInside(k, w);
      if inside { r := r + {w}; }
      todo := todo - {w};
    }
  }

  lemma {:induction false} CandidatesAscend(table: seq<Pattern>, present: Literals, n: nat)
    requires n <= |table|
    ensures Ascending(Candidates(table, present, n))
    ensures forall k :: k in Candidates(table, present, n) <==> 0 <= k < n && IsCandidate(table, present, k)
  {
    if n > 0 {
      CandidatesAscend(table, present, n - 1);
      var before := Candidates(table, present, n - 1);
      hide IsCandidate;
      assert forall i :: 0 <= i < |before| ==> before[i] in before;
    }
  }

  lemma NoKeywords(lits: Literals)
    requires Minimal(lits) == {}
    ensures lits == {}
  {
    if lits != {} {
      var w :| w in lits;
      HasKeyword(lits, w);
    }
  }

  predicate IsAscii(s: string) {
    forall i :: 0 <= i < |s| ==> s[i] as int < 128
  }

  /** `_bound_for_kb`: a line that is too long is cut in the middle. */
  function BoundForKb(s: string): string {
    if |s| <= MAX_MATCH_CHARS then s
    else s[..HEAD_CHARS] + " " + s[|s| - (MAX_MATCH_CHARS - HEAD_CHARS - 1)..]
  }

  lemma BoundForKbKeeps(s: string)
    ensures |BoundForKb(s)| <= MAX_MATCH_CHARS
    ensures IsLowercase(s) ==> IsLowercase(BoundForKb(s))
  {
  }

  /** Up to 4096 characters a text is what it is scanned as; of a longer one the first 3072 and the
      last 1023 are left, with a blank between them. */
  lemma BoundedIsHeadAndTail(s: string, i: nat)
    requires i < |BoundForKb(s)|
    ensures |BoundForKb(s)| == if |s| <= 4096 then |s| else 4096
    ensures BoundForKb(s)[i] == if |s| <= 4096 || i < 3072 then s[i] else if i == 3072 then ' ' else s[|s| - 4096 + i]
  {
  }

  /** The verdict on a text: the first rule of the whole table whose bounded pattern is found. */
  ghost predicate IsVerdict(table: seq<Pattern>, s: string, r: Option<nat>) {
    match r
    case Some(k) =>
      k < |table| && Finds(Bound(table[k], 300), s) && forall x :: 0 <= x < k ==> !Finds(Bound(table[x], 300), s)
    case None => forall x :: 0 <= x < |table| ==> !Finds(Bound(table[x], 300), s)
  }

  lemma {:induction false} FirstIsVerdict(table: seq<Pattern>, n: nat, s: string)
    requires n <= |table|
    ensures IsVerdict(table[..n], s, FirstMatch(table, AllRules(n), s))
  {
    if n > 0 {
      FirstIsVerdict(table, n - 1, s);
      hide Finds;
      FirstMatchAppend(table, AllRules(n - 1), [n - 1], s);
      VerdictOfOne(table, n - 1, s);
      assert table[..n] == table[..n - 1] + [table[n - 1]];
    }
  }

  /** Some literal of the rule is in the text, or the rule has none. */
  ghost predicate MustTry(p: Pattern, s: string) {
    var lits := Guaranteed(p);
    || lits.None? || lits.value == {} || (exists w :: w in lits.value && |w| < 3)
    || exists w :: w in lits.value && Occurs(w, s)
  }

  lemma CandidateMustBeTried(table: seq<Pattern>, s: string, k: nat)
    requires k < |table|
    ensures k in Candidates(table, PresentIn(table, s), |table|) <==> MustTry(table[k], s)
  {
    CandidatesAscend(table, PresentIn(table, s), |table|);
    if w :| Guard(table[k]).Some? && w in Guard(table[k]).value { assert Gates(table, k, w); }
    forall w | Guard(table[k]).Some? && w in Guard(table[k]).value ensures w in PresentIn(table, s) <==> Occurs(w, s) {
      assert Gates(table, k, w);
    }
  }

  /** `_LITERALS_WITH`: the literals around each keyword. */
  method AroundEach(keywords: set<string>, lits: set<string>) returns (m: map<string, set<string>>)
    ensures m.Keys == keywords
    ensures forall k, w :: k in m ==> (w in m[k] <==> w in lits && Contains(w, k))
  {
    m := map[];
    var todo := keywords;
    while todo != {}
      invariant todo <= keywords && m.Keys == keywords - todo
      invariant forall k, w :: k in m ==> (w in m[k] <==> w in lits && Contains(w, k))
      decreases todo
    {
      var k :| k in todo;
      var around := Around(lits, k);
      m := m[k := around];
      todo := todo - {k};
    }
  }

  /** The search goes on right behind the start of each hit, so no keyword in the text is missed,
      not even one that overlaps another. */
  method FindKeywords(keywords: seq<string>, ghost lits: Literals, s: string) returns (found: set<string>)
    requires forall k :: k in keywords <==> k in Minimal(lits)
    ensures forall k :: k in found <==> k in Minimal(lits) && Occurs(k, s)
  {
    found := {};
    var pos := 0;
    var hit := SearchAlternation(keywords, s, pos);
    while hit.Some?
      invariant pos <= |s| + 1
      invariant forall k :: k in found ==> k in keywords && Occurs(k, s)
      invariant forall k, a: nat :: k in keywords && a < pos && OccursAt(k, s, a) ==> k in found
      invariant hit.Some? ==>
                  pos <= hit.value.0 <= |s| && hit.value.1 in keywords && OccursAt(hit.value.1, s, hit.value.0)
      invariant forall a: nat, k :: pos <= a && (hit.Some? ==> a < hit.value.0) && k in keywords ==> !OccursAt(k, s, a)
      decreases |s| + 1 - pos
    {
      var (start, k) := hit.value;
      OnlyHit(lits, k, s, start);
      assert OccursIn(k, s, 0, |s|);
      found := found + {k};
      pos := start + 1;
      hit := SearchAlternation(keywords, s, pos);
    }
  }

  ghost predicate RightCache(table: seq<Pattern>, cache: map<Literals, seq<nat>>) {
    forall present :: present in cache ==> cache[present] == Candidates(table, present, |table|)
  }

  lemma RightCacheMore(table: seq<Pattern>, cache: map<Literals, seq<nat>>, present: Literals)
    requires RightCache(table, cache)
    ensures RightCache(table, cache[present := Candidates(table, present, |table|)])
    ensures RightCache(table, map[][present := Candidates(table, present, |table|)])
  {
  }

  /** k is listed under one of the literals. */
  ghost predicate ListedUnder(index: map<string, seq<nat>>, lits: Literals, k: nat) {
    exists w :: w in lits && k in RulesOf(index, w)
  }

  lemma ListedUnderNone(index: map<string, seq<nat>>, k: nat)
    ensures !ListedUnder(index, {}, k)
  {
  }

  lemma ListedUnderMore(index: map<string, seq<nat>>, lits: Literals, w: string, k: nat)
    ensures ListedUnder(index, lits + {w}, k) <==> ListedUnder(index, lits, k) || k in RulesOf(index, w)
  {
    if ListedUnder(index, lits, k) {
      var v :| v in lits && k in RulesOf(index, v);
      assert v in lits + {w};
    }
    if k in RulesOf(index, w) { assert w in lits + {w}; }
  }

  /** The rules listed under the literals present, and the unguarded ones, are the candidates. */
  lemma ListedAreCandidates(table: seq<Pattern>, index: map<string, seq<nat>>, present: Literals, k: nat)
    requires IndexUpTo(table, index, |table|)
    ensures k in Candidates(table, present, |table|) <==>
              k in Candidates(table, {}, |table|) || ListedUnder(index, present, k)
  {
    CandidatesAscend(table, {}, |table|);
    CandidatesAscend(table, present, |table|);
    forall w ensures k in RulesOf(index, w) <==> k < |table| && Gates(table, k, w) {
    }
    if k < |table| && IsCandidate(table, present, k) && Guard(table[k]).Some? {
      var w :| w in Guard(table[k]).value && w in present;
      assert Gates(table, k, w);
    }
  }

  class Gate {
    const table: seq<Pattern>
    var literalRules: map<string, seq<nat>>     // _LITERAL_PATTERNS
    var unguarded: seq<nat>                     // _UNGUARDED_IDX
    var keywords: seq<string>                   // _KEYWORDS, longest first
    var literalsWith: map<string, set<string>>  // _LITERALS_WITH
    var cache: map<Literals, seq<nat>>          // _CANDIDATE_CACHE

    ghost predicate Indexed()
      reads this`literalRules, this`unguarded
    {
      IndexUpTo(table, literalRules, |table|) && unguarded == Candidates(table, {}, |table|)
    }

    ghost predicate Searchable()
      reads this`keywords, this`literalsWith
    {
      && (forall k :: k in keywords <==> k in Minimal(GateLiterals(table)))
      && literalsWith.Keys == Minimal(GateLiterals(table))
      && (forall k, w :: k in literalsWith ==> (w in literalsWith[k] <==> w in GateLiterals(table) && Contains(w, k)))
    }

    ghost predicate Cached()
      reads this`cache
    {
      RightCache(table, cache)
    }

    ghost predicate Valid()
      reads this
    {
      Indexed() && Searchable() && Cached()
    }

    constructor (table: seq<Pattern>)
      ensures Valid() && this.table == table
    {
      hide IndexUpTo, Candidates, GateLiterals, Minimal, Contains;
      var index, rest := IndexRules(table);
      IndexKeys(table, index);
      var pruned := Prune(index.Keys);
      var longest := LongestFirst(pruned);
      var around := AroundEach(pruned, index.Keys);
      this.table := table;
      literalRules, unguarded := index, rest;
      keywords, literalsWith := longest, around;
      cache := map[];
    }

    /** `_present_literals`: the keywords in the text, then the literals around them. */
    method PresentLiterals(s: string) returns (present: Literals)
      requires Valid()
      ensures present == PresentIn(table, s)
    {
      hide Searchable, Indexed, Cached, Minimal, Contains, Occurs, GateLiterals;
      KeywordsAreMinimal();
      var found := FindKeywords(keywords, GateLiterals(table), s);
      AroundFound(found);
      var confirmed := set k, w | k in found && w in literalsWith[k] :: w;
      present := Confirm(confirmed, s);
      KeywordsSuffice(GateLiterals(table), s, found, present);
      assert forall w :: w in present <==> w in PresentIn(table, s);
    }

    lemma KeywordsAreMinimal()
      requires Valid()
      ensures forall k :: k in keywords <==> k in Minimal(GateLiterals(table))
      ensures literalsWith.Keys == Minimal(GateLiterals(table))
    {
    }

    lemma AroundFound(found: set<string>)
      requires Valid() && forall k :: k in found ==> k in Minimal(GateLiterals(table))
      ensures forall k :: k in found ==> k in literalsWith
      ensures var around := set k, w | k in found && k in literalsWith && w in literalsWith[k] :: w;
              forall w :: w in around <==> exists k :: k in found && w in GateLiterals(table) && Contains(w, k)
    {
      hide Contains, GateLiterals, Minimal, Indexed, Cached;
      forall k | k in found ensures k in literalsWith { assert k in literalsWith.Keys; }
    }

    /** The rules guarded by a literal present, and the unguarded ones, in table order. */
    method Gather(present: Literals) returns (ids: seq<nat>)
      requires Valid() && present <= GateLiterals(table)
      ensures ids == Candidates(table, present, |table|)
    {
      hide Candidates, IndexUpTo, ListedUnder, GateLiterals, Searchable, Cached;
      IndexKeys(table, literalRules);
      var chosen := set k | k in unguarded;
      var todo := present;
      assert present - todo == {};
      forall k: nat { ListedUnderNone(literalRules, k); }
      while todo != {}
        invariant todo <= present
        invariant forall k: nat :: k in chosen <==> k in unguarded || ListedUnder(literalRules, present - todo, k)
        decreases todo
      {
        var w :| w in todo;
        forall k: nat { ListedUnderMore(literalRules, present - todo, w, k); }
        assert present - (todo - {w}) == present - todo + {w};
        chosen := chosen + set k | k in literalRules[w];
        todo := todo - {w};
      }
      assert present - todo == present;
      forall k: nat { ListedAreCandidates(table, literalRules, present, k); }
      CandidatesAscend(table, present, |table|);
      ids := SortedSet(chosen);
      AscendingUnique(ids, Candidates(table, present, |table|));
    }

    /** `_gated_candidates`: the rules that can possibly match, from the cache when possible. */
    method GatedCandidates(s: string) returns (ids: seq<nat>)
      requires Valid()
      modifies this`cache
      ensures Valid()
      ensures ids == Candidates(table, PresentIn(table, s), |table|)
    {
      hide Searchable, Cached, IndexUpTo, Candidates, GateLiterals, Occurs;
      if keywords == [] {
        NothingToFind(s);
        return unguarded;
      }
      var present := PresentLiterals(s);
      if present == {} {
        return unguarded;
      }
      if present in cache {
        CachedIs(present);
        return cache[present];
      }
      ids := Gather(present);
      Remember(present, ids);
    }

    method Remember(present: Literals, ids: seq<nat>)
      requires Valid() && ids == Candidates(table, present, |table|)
      modifies this`cache
      ensures Valid()
    {
      hide Indexed, Searchable, Candidates, RightCache;
      if |cache| >= CACHE_MAX {
        cache := map[];
      }
      RightCacheMore(table, old(cache), present);
      cache := cache[present := ids];
    }

    lemma CachedIs(present: Literals)
      requires Valid() && present in cache
      ensures cache[present] == Candidates(table, present, |table|)
    {
    }

    /** Without keywords there are no gate literals, so nothing can be present. */
    lemma NothingToFind(s: string)
      requires Valid() && keywords == []
      ensures PresentIn(table, s) == {}
    {
      assert forall k :: k in Minimal(GateLiterals(table)) ==> k in keywords;
      assert Minimal(GateLiterals(table)) == {};
      NoKeywords(GateLiterals(table));
    }

    /** The candidate choice of `iter_classify` for a line already lowercased: the gate is used
        on ASCII text only, and never changes which rule matches first. */
    method RulesFor(combined: string) returns (ids: seq<nat>)
      requires Valid() && IsLowercase(combined)
      modifies this`cache
      ensures Valid()
      ensures forall k :: k in ids ==> k < |table|
      ensures FirstMatch(table, ids, BoundForKb(combined)) == FirstMatch(table, AllRules(|table|), BoundForKb(combined))
      ensures IsVerdict(table, BoundForKb(combined), FirstMatch(table, ids, BoundForKb(combined)))
      ensures Ascending(ids)
      ensures var text := BoundForKb(combined);
              forall k :: 0 <= k < |table| ==>
                (k in ids <==> MustTry(table[k], text) || exists i :: 0 <= i < |text| && text[i] as int > 127)
    {
      var text := BoundForKb(combined);
      BoundForKbKeeps(combined);
      FirstIsVerdict(table, |table|, text);
      assert table[..|table|] == table;
      hide Candidates, PresentIn, Finds, MustTry, FirstMatch, AllRules;
      if IsAscii(text) {
        ids := GatedCandidates(text);
        GateKeepsVerdict(table, PresentIn(table, text), text, |table|);
        CandidatesAscend(table, PresentIn(table, text), |table|);
        forall k | 0 <= k < |table| { CandidateMustBeTried(table, text, k); }
      } else {
        AllRulesAre(|table|);
        ids := AllRuleIds();
      }
    }

    method AllRuleIds() returns (ids: seq<nat>)
      ensures ids == AllRules(|table|)
    {
      ids := AllRules(|table|);
    }
  }
}
