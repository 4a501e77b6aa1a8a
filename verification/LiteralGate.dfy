/** The static analysis behind the literal gate: literals one of which is in every match. */
module LiteralGate {
  import opened Options
  import opened Regex

  type Literals = set<string>

  // ----------------------------------------------------------- `in` on strings

  ghost predicate OccursAt(w: string, s: string, a: nat) {
    a + |w| <= |s| && s[a..a + |w|] == w
  }

  /** w lies inside s[i..j] */
  ghost predicate OccursIn(w: string, s: string, i: nat, j: nat) {
    exists a: nat :: i <= a && a + |w| <= j && OccursAt(w, s, a)
  }

  ghost predicate Occurs(w: string, s: string) {
    OccursIn(w, s, 0, |s|)
  }

  ghost predicate OneOccursIn(lits: Literals, s: string, i: nat, j: nat) {
    exists w :: w in lits && OccursIn(w, s, i, j)
  }

  // ------------------------------------------------------------ the analysis

  predicate Useful(lits: Option<Literals>) {
    lits.Some? && lits.value != {}
  }

  /** `_prefer`: the smaller of two non-empty literal sets. */
  function Prefer(cur: Option<Literals>, new_: Option<Literals>): Option<Literals> {
    if !Useful(new_) then cur
    else if cur.None? then new_
    else if |new_.value| < |cur.value| then new_ else cur
  }

  /** `_flush` */
  function Flush(runs: seq<string>, run: string): seq<string> {
    if run == "" then runs else runs + [run]
  }

  /** Python's max(runs, key=len): the first of the longest. */
  function Longest(runs: seq<string>): (r: string)
    requires runs != []
    ensures r in runs
  {
    if |runs| == 1 then runs[0]
    else
      var r := Longest(runs[..|runs| - 1]);
      if |runs[|runs| - 1]| > |r| then runs[|runs| - 1] else r
  }

  function Solid(runs: seq<string>): (r: seq<string>)
    ensures forall w :: w in r ==> w in runs
  {
    if runs == [] then []
    else
      var n := |runs| - 1;
      Solid(runs[..n]) + if |runs[n]| >= 3 then [runs[n]] else []
  }

  /** The final choice between a literal run and the literals of a sub-expression. */
  function Choose(best: Option<Literals>, runs: seq<string>): Option<Literals> {
    if Solid(runs) != [] then Some({Longest(Solid(runs))})
    else if Useful(best) && forall b :: b in best.value ==> |b| >= 3 then best
    else if runs != [] then Some({Longest(runs)})
    else best
  }

  /** What the loop over the items of a pattern ends with, from a given state. */
  function Scan(p: Pattern, best: Option<Literals>, runs: seq<string>, run: string): Option<Literals>
    decreases p, 0
  {
    match p
    case End => Choose(best, Flush(runs, run))
    case Then(Lit(c), rest) => Scan(rest, best, runs, run + [Lower(c)])
    case Then(item, rest) => Scan(rest, Prefer(best, FromItem(item)), Flush(runs, run), "")
  }

  function Guaranteed(p: Pattern): Option<Literals>
    decreases p, 1
  {
    Scan(p, None, [], "")
  }

  function FromItem(item: Item): Option<Literals>
    decreases item, 1
  {
    match item
    case Group(body) => Guaranteed(body)
    case Branch(alts) => Some(FromAlts(alts, {}))
    case Repeat(least, _, body) => if least >= 1 then Guaranteed(body) else None
    case _ => None
  }

  /** The union over all alternatives, or nothing if one alternative guarantees nothing. */
  function FromAlts(alts: Alternatives, union: Literals): Literals
    decreases alts, 1
  {
    match alts
    case NoMore => union
    case Alt(first, more) =>
      var lits := Guaranteed(first);
      if Useful(lits) then FromAlts(more, union + lits.value) else {}
  }

  /** `_guaranteed_literals`: one pass over the items of the parse tree. */
  method GuaranteedLiterals(p: Pattern) returns (r: Option<Literals>)
    ensures r == Guaranteed(p) && IsChoice(Items(p), r)
    decreases p
  {
    GuaranteedIsChoice(p);
    hide IsChoice, Items, Choose;
    var best: Option<Literals> := None;
    var runs: seq<string>, run: string := [], "";
    var todo := p;
    while todo.Then?
      invariant todo == p || todo < p
      invariant Scan(todo, best, runs, run) == Guaranteed(p)
      decreases todo
    {
      match todo.item {
        case Lit(c) =>
          run := run + [Lower(c)];
        case Group(body) =>
          runs, run := Flush(runs, run), "";
          var sub := GuaranteedLiterals(body);
          best := Prefer(best, sub);
        case Branch(alts) =>
          runs, run := Flush(runs, run), "";
          var union: Literals := {};
          var left := alts;
          while left.Alt?
            invariant left == alts || left < alts
            invariant FromAlts(left, union) == FromAlts(alts, {})
            decreases left
          {
            var lits := GuaranteedLiterals(left.first);
            if !Useful(lits) {
              union := {};
              break;
            }
            union, left := union + lits.value, left.more;
          }
          best := Prefer(best, Some(union));
        case Repeat(least, _, body) =>
          runs, run := Flush(runs, run), "";
          if least >= 1 {
            var sub := GuaranteedLiterals(body);
            best := Prefer(best, sub);
          }
        case _ =>
          runs, run := Flush(runs, run), "";
      }
      todo := todo.rest;
    }
    r := Choose(best, Flush(runs, run));
  }

  // ---------------------------------------------------------------- soundness

  predicate IsLowercase(s: string) {
    forall i :: 0 <= i < |s| ==> Lower(s[i]) == s[i]
  }

  lemma OccursWider(w: string, s: string, i: nat, j: nat, i': nat, j': nat)
    requires OccursIn(w, s, i, j) && i' <= i && j <= j'
    ensures OccursIn(w, s, i', j')
  {
    var a: nat :| i <= a && a + |w| <= j && OccursAt(w, s, a);
  }

  lemma OneOccursWider(lits: Literals, s: string, i: nat, j: nat, i': nat, j': nat)
    requires OneOccursIn(lits, s, i, j) && i' <= i && j <= j'
    ensures OneOccursIn(lits, s, i', j')
  {
    var w :| w in lits && OccursIn(w, s, i, j);
    OccursWider(w, s, i, j, i', j');
  }

  /** What the accumulators of the scan know once s[i0..i] has been matched. */
  ghost predicate Witnessed(best: Option<Literals>, runs: seq<string>, run: string, s: string, i0: nat, i: nat) {
    && (best.Some? ==> OneOccursIn(best.value, s, i0, i))
    && (forall w :: w in runs ==> OccursIn(w, s, i0, i))
    && i0 + |run| <= i && OccursAt(run, s, i - |run|)
  }

  lemma ChooseSound(best: Option<Literals>, runs: seq<string>, run: string, s: string, i0: nat, i: nat)
    requires Witnessed(best, runs, run, s, i0, i)
    ensures var r := Choose(best, Flush(runs, run)); r.Some? ==> OneOccursIn(r.value, s, i0, i)
  {
    var all := Flush(runs, run);
    assert run != "" ==> OccursIn(run, s, i0, i);
    assert forall w :: w in all ==> OccursIn(w, s, i0, i);
    if Solid(all) != [] {
      assert Longest(Solid(all)) in all;
    }
  }

  lemma LitStep(c: char, best: Option<Literals>, runs: seq<string>, run: string, s: string, i0: nat, i: nat)
    requires i < |s| && Lower(s[i]) == s[i] == Lower(c)
    requires Witnessed(best, runs, run, s, i0, i)
    ensures Witnessed(best, runs, run + [Lower(c)], s, i0, i + 1)
  {
    forall w | w in runs ensures OccursIn(w, s, i0, i + 1) { OccursWider(w, s, i0, i, i0, i + 1); }
    if best.Some? { OneOccursWider(best.value, s, i0, i, i0, i + 1); }
    var a := i - |run|;
    assert s[a..a + |run|] == run;
    assert s[a..i + 1] == s[a..i] + [s[i]];
    assert OccursAt(run + [Lower(c)], s, a);
  }

  lemma FlushStep(best: Option<Literals>, runs: seq<string>, run: string, found: Option<Literals>,
                  s: string, i0: nat, i: nat, k: nat)
    requires Witnessed(best, runs, run, s, i0, i) && i <= k <= |s|
    requires Useful(found) ==> OneOccursIn(found.value, s, i, k)
    ensures Witnessed(Prefer(best, found), Flush(runs, run), "", s, i0, k)
  {
    forall w | w in runs ensures OccursIn(w, s, i0, k) { OccursWider(w, s, i0, i, i0, k); }
    if best.Some? { OneOccursWider(best.value, s, i0, i, i0, k); }
    if Useful(found) { OneOccursWider(found.value, s, i, k, i0, k); }
    assert OccursIn(run, s, i0, i);
    OccursWider(run, s, i0, i, i0, k);
  }

  /** Along any match of the gap-bounded pattern the accumulators stay witnessed. */
  lemma {:induction false} ScanSound(p: Pattern, limit: nat, best: Option<Literals>, runs: seq<string>, run: string,
                                     s: string, i0: nat, i: nat, j: nat)
    requires IsLowercase(s) && Matches(Bound(p, limit), s, i, j) && i <= |s|
    requires Witnessed(best, runs, run, s, i0, i)
    ensures var r := Scan(p, best, runs, run); r.Some? ==> OneOccursIn(r.value, s, i0, j)
    decreases p, 0
  {
    match p
    case End =>
      ChooseSound(best, runs, run, s, i0, i);
    case Then(item, rest) =>
      var k := FirstItem(item, rest, limit, s, i, j);
      if item.Lit? {
        LitStep(item.c, best, runs, run, s, i0, i);
        ScanSound(rest, limit, best, runs, run + [Lower(item.c)], s, i0, k, j);
      } else {
        if Useful(FromItem(item)) {
          ItemSound(item, limit, s, i, k);
        }
        FlushStep(best, runs, run, FromItem(item), s, i0, i, k);
        ScanSound(rest, limit, Prefer(best, FromItem(item)), Flush(runs, run), "", s, i0, k, j);
      }
  }

  lemma FirstItem(item: Item, rest: Pattern, limit: nat, s: string, i: nat, j: nat) returns (k: nat)
    requires Matches(Bound(Then(item, rest), limit), s, i, j)
    ensures i <= k <= j && k <= |s|
    ensures ItemMatches(BoundItem(item, limit), s, i, k) && Matches(Bound(rest, limit), s, k, j)
    ensures item.Lit? ==> k == i + 1 && Lower(s[i]) == Lower(item.c)
  {
    k :| i <= k <= j && ItemMatches(BoundItem(item, limit), s, i, k) && Matches(Bound(rest, limit), s, k, j);
  }

  lemma {:induction false} GuaranteedSound(p: Pattern, limit: nat, s: string, i: nat, j: nat)
    requires IsLowercase(s) && Matches(Bound(p, limit), s, i, j) && Guaranteed(p).Some?
    ensures OneOccursIn(Guaranteed(p).value, s, i, j)
    decreases p, 1
  {
    MatchIsSpan(Bound(p, limit), s, i, j);
    assert OccursAt("", s, i);
    ScanSound(p, limit, None, [], "", s, i, i, j);
  }

  lemma {:induction false} ItemSound(item: Item, limit: nat, s: string, i: nat, j: nat)
    requires IsLowercase(s) && ItemMatches(BoundItem(item, limit), s, i, j) && Useful(FromItem(item))
    ensures OneOccursIn(FromItem(item).value, s, i, j)
    decreases item, 1
  {
    match item
    case Group(body) =>
      GuaranteedSound(body, limit, s, i, j);
    case Branch(alts) =>
      AltsSound(alts, limit, {}, s, i, j);
    case Repeat(least, most, body) =>
      var bounded := BoundItem(item, limit).body;
      var n: nat :| least <= n && MatchesTimes(bounded, n, s, i, j);
      assert n >= 1 && bounded == Bound(body, limit);
      var k := FirstTime(bounded, n, s, i, j);
      GuaranteedSound(body, limit, s, i, k);
      OneOccursWider(Guaranteed(body).value, s, i, k, i, j);
    case _ =>
  }

  lemma {:induction false} AltsSound(alts: Alternatives, limit: nat, union: Literals, s: string, i: nat, j: nat)
    requires IsLowercase(s) && SomeAltMatches(BoundAlts(alts, limit), s, i, j) && FromAlts(alts, union) != {}
    ensures OneOccursIn(FromAlts(alts, union), s, i, j)
    decreases alts, 1
  {
    var Alt(first, more) := alts;
    var lits := Guaranteed(first).value;
    if Matches(Bound(first, limit), s, i, j) {
      GuaranteedSound(first, limit, s, i, j);
      UnionGrows(more, union + lits);
    } else {
      AltsSound(more, limit, union + lits, s, i, j);
    }
  }

  lemma {:induction false} UnionGrows(alts: Alternatives, union: Literals)
    ensures FromAlts(alts, union) == {} || union <= FromAlts(alts, union)
  {
    if alts.Alt? && Useful(Guaranteed(alts.first)) {
      UnionGrows(alts.more, union + Guaranteed(alts.first).value);
    }
  }

  // ------------------------------------------ which literals are chosen, read off the items

  function Items(p: Pattern): seq<Item> {
    match p
    case End => []
    case Then(item, rest) => [item] + Items(rest)
  }

  /** A longest stretch of literal characters: items a up to b. */
  ghost predicate IsRun(items: seq<Item>, a: nat, b: nat) {
    && a < b <= |items| && (forall k :: a <= k < b ==> items[k].Lit?)
    && (a == 0 || !items[a - 1].Lit?) && (b == |items| || !items[b].Lit?)
  }

  function TextOf(items: seq<Item>, a: nat, b: nat): string
    requires a <= b <= |items|
  {
    seq(b - a, k requires 0 <= k < b - a => if items[a + k].Lit? then Lower(items[a + k].c) else ' ')
  }

  /** No run is longer and no earlier one as long. */
  ghost predicate LongestRun(items: seq<Item>, a: nat, b: nat) {
    IsRun(items, a, b) && forall x: nat, y: nat :: IsRun(items, x, y) ==> y - x < b - a || (y - x == b - a && a <= x)
  }

  /** No sub-expression proves fewer literals, and no earlier one as few. */
  ghost predicate FewestAt(items: seq<Item>, k: nat) {
    && k < |items| && Useful(FromItem(items[k]))
    && forall x: nat :: x < |items| && Useful(FromItem(items[x])) ==>
         |FromItem(items[k]).value| < |FromItem(items[x]).value|
         || (|FromItem(items[k]).value| == |FromItem(items[x]).value| && k <= x)
  }

  predicate AllLong(lits: Option<Literals>) {
    lits.Some? && forall w :: w in lits.value ==> |w| >= 3
  }

  ghost predicate FromRun(items: seq<Item>, r: Option<Literals>) {
    exists a: nat, b: nat :: LongestRun(items, a, b) && r == Some({TextOf(items, a, b)})
  }

  ghost predicate FromFewest(items: seq<Item>, r: Option<Literals>) {
    exists k: nat :: FewestAt(items, k) && r == FromItem(items[k])
  }

  /** The longest run if it has three characters, else the fewest literals of a sub-expression if
      each has three, else the longest run, else those literals. */
  ghost predicate IsChoice(items: seq<Item>, r: Option<Literals>) {
    if exists a: nat, b: nat :: IsRun(items, a, b) && b - a >= 3 then FromRun(items, r)
    else if exists k: nat :: FewestAt(items, k) && AllLong(FromItem(items[k])) then FromFewest(items, r)
    else if exists a: nat, b: nat :: IsRun(items, a, b) then FromRun(items, r)
    else if exists k: nat :: FewestAt(items, k) then FromFewest(items, r)
    else r == None
  }

  /** The least literals among the first n items. */
  ghost predicate BestSoFar(items: seq<Item>, n: nat, best: Option<Literals>)
    requires n <= |items|
  {
    if best.None? then forall k: nat :: k < n ==> !Useful(FromItem(items[k]))
    else exists k: nat :: FewestAt(items[..n], k) && best == FromItem(items[k])
  }

  lemma PreferKeepsBest(items: seq<Item>, n: nat, best: Option<Literals>)
    requires n < |items| && BestSoFar(items, n, best)
    ensures BestSoFar(items, n + 1, Prefer(best, FromItem(items[n])))
  {
    var before, now, next := items[..n], items[..n + 1], Prefer(best, FromItem(items[n]));
    hide FromItem;
    assert now == before + [items[n]];
    if best.Some? {
      var k: nat :| FewestAt(before, k) && best == FromItem(items[k]);
      if next == best { assert FewestAt(now, k); } else { assert FewestAt(now, n); }
    } else if Useful(FromItem(items[n])) {
      assert FewestAt(now, n);
    }
  }

  /** The runs ended before item n, in order, where they stand. */
  ghost predicate RunsAt(items: seq<Item>, n: nat, runs: seq<string>, at: seq<(nat, nat)>)
    requires n <= |items|
  {
    && |at| == |runs|
    && (forall k :: 0 <= k < |at| ==> RunAt(items, n, runs[k], at[k]))
    && (forall k, l :: 0 <= k < l < |at| ==> at[k].0 < at[l].0)
    && (forall a: nat, b: nat :: IsRun(items, a, b) && b < n ==> (a, b) in at)
  }

  ghost predicate RunAt(items: seq<Item>, n: nat, text: string, at: (nat, nat)) {
    && IsRun(items, at.0, at.1) && at.1 <= n && text == TextOf(items, at.0, at.1)
  }

  /** The run that is open at item n. */
  ghost predicate OpenRun(items: seq<Item>, n: nat, run: string) {
    && |run| <= n <= |items| && run == TextOf(items, n - |run|, n)
    && (forall k :: n - |run| <= k < n ==> items[k].Lit?)
    && (|run| == n || !items[n - |run| - 1].Lit?)
  }

  lemma OpenGrows(items: seq<Item>, n: nat, run: string)
    requires n < |items| && items[n].Lit? && OpenRun(items, n, run)
    ensures OpenRun(items, n + 1, run + [Lower(items[n].c)])
  {
  }

  /** Closing the open run files it with the others. */
  lemma FlushFiles(items: seq<Item>, n: nat, runs: seq<string>, run: string, at: seq<(nat, nat)>)
    returns (more: seq<(nat, nat)>)
    requires n <= |items| && (n == |items| || !items[n].Lit?)
    requires OpenRun(items, n, run) && RunsAt(items, n, runs, at)
    requires forall k :: 0 <= k < |at| ==> at[k].1 < n || run == ""
    ensures RunsAt(items, n, Flush(runs, run), more)
    ensures forall a: nat, b: nat :: IsRun(items, a, b) && b <= n ==> (a, b) in more
  {
    hide TextOf, IsRun;
    more := if run == "" then at else at + [(n - |run|, n)];
    if run != "" {
      OpenIsRun(items, n, run);
      RunsBefore(items, n, runs, at, n - |run|);
      hide OpenRun;
      assert RunAt(items, n, run, (n - |run|, n));
    }
    forall x: nat, y: nat | IsRun(items, x, y) && y <= n ensures (x, y) in more {
      if y == n { RunsEndAt(items, x, n, run); }
    }
  }

  lemma OpenIsRun(items: seq<Item>, n: nat, run: string)
    requires n <= |items| && (n == |items| || !items[n].Lit?) && OpenRun(items, n, run) && run != ""
    ensures IsRun(items, n - |run|, n) && run == TextOf(items, n - |run|, n)
  {
    hide TextOf;
  }

  lemma RunsBefore(items: seq<Item>, n: nat, runs: seq<string>, at: seq<(nat, nat)>, a: nat)
    requires n <= |items| && RunsAt(items, n, runs, at) && IsRun(items, a, n)
    requires forall k :: 0 <= k < |at| ==> at[k].1 < n
    ensures forall k :: 0 <= k < |at| ==> at[k].0 < a
  {
    hide TextOf;
    forall k | 0 <= k < |at| ensures at[k].0 < a {
      assert RunAt(items, n, runs[k], at[k]);
      assert !items[at[k].1].Lit?;
    }
  }

  lemma RunsEndAt(items: seq<Item>, x: nat, n: nat, run: string)
    requires IsRun(items, x, n) && OpenRun(items, n, run)
    ensures run != "" && x == n - |run|
  {
    hide TextOf;
    assert items[n - 1].Lit?;
    RunsEndOnce(items, x, n - |run|, n);
  }

  lemma RunsEndOnce(items: seq<Item>, x: nat, a: nat, n: nat)
    requires IsRun(items, x, n) && a < n && (a == 0 || !items[a - 1].Lit?) && forall k :: a <= k < n ==> items[k].Lit?
    ensures x == a
  {
    assert a > 0 ==> !items[a - 1].Lit?;
    assert x > 0 ==> !items[x - 1].Lit?;
  }

  lemma {:induction false} LongestIs(runs: seq<string>) returns (k: nat)
    requires runs != []
    ensures k < |runs| && Longest(runs) == runs[k]
    ensures forall l :: 0 <= l < |runs| ==> |runs[l]| < |runs[k]| || (|runs[l]| == |runs[k]| && k <= l)
  {
    k := 0;
    if |runs| > 1 {
      var n := |runs| - 1;
      var j := LongestIs(runs[..n]);
      k := if |runs[n]| > |runs[j]| then n else j;
    }
  }

  lemma {:induction false} SolidAre(runs: seq<string>)
    ensures forall w :: w in Solid(runs) <==> w in runs && |w| >= 3
  {
    if runs != [] {
      var n := |runs| - 1;
      SolidAre(runs[..n]);
      assert runs == runs[..n] + [runs[n]];
    }
  }

  lemma {:induction false} SolidLongest(runs: seq<string>)
    requires Solid(runs) != []
    ensures Longest(Solid(runs)) == Longest(runs)
  {
    hide Solid, Longest;
    var n := |runs| - 1;
    SolidStep(runs);
    var init, last := runs[..n], runs[n];
    SolidAre(init);
    assert runs == init + [last];
    if init != [] { LongestStep(init, last); }
    if Solid(init) != [] {
      SolidLongest(init);
      assert Longest(Solid(init)) in Solid(init);
      if |last| >= 3 { LongestStep(Solid(init), last); } else { assert Solid(runs) == Solid(init); }
    } else {
      assert Solid(runs) == [last] && Longest(Solid(runs)) == last;
      if init == [] { assert runs == [last]; } else { assert Longest(init) in init; }
    }
  }

  lemma SolidStep(runs: seq<string>)
    requires Solid(runs) != []
    ensures runs != []
    ensures var n := |runs| - 1;
            Solid(runs) == Solid(runs[..n]) + if |runs[n]| >= 3 then [runs[n]] else []
  {
  }

  lemma LongestStep(runs: seq<string>, last: string)
    requires runs != []
    ensures Longest(runs + [last]) == if |last| > |Longest(runs)| then last else Longest(runs)
  {
    assert (runs + [last])[..|runs|] == runs;
  }

  lemma FiledAt(items: seq<Item>, runs: seq<string>, at: seq<(nat, nat)>, k: nat)
    requires RunsAt(items, |items|, runs, at) && k < |runs|
    ensures k < |at| && IsRun(items, at[k].0, at[k].1) && runs[k] == TextOf(items, at[k].0, at[k].1)
    ensures |runs[k]| == at[k].1 - at[k].0
    ensures forall l :: 0 <= l < k ==> at[l].0 < at[k].0
  {
    assert RunAt(items, |items|, runs[k], at[k]);
  }

  /** The longest of all the runs filed. */
  lemma LongestFiled(items: seq<Item>, runs: seq<string>, at: seq<(nat, nat)>)
    requires runs != [] && RunsAt(items, |items|, runs, at)
    requires forall a: nat, b: nat :: IsRun(items, a, b) ==> (a, b) in at
    ensures FromRun(items, Some({Longest(runs)}))
    ensures |Longest(runs)| >= 3 <==> exists a: nat, b: nat :: IsRun(items, a, b) && b - a >= 3
  {
    var k := LongestIs(runs);
    FiledAt(items, runs, at, k);
    hide TextOf, IsRun, Longest, RunsAt, LongestRun;
    forall x: nat, y: nat | IsRun(items, x, y) ensures y - x <= |runs[k]| { NoLonger(items, runs, at, k, x, y); }
    FiledLongest(items, runs, at, k);
  }

  lemma NoLonger(items: seq<Item>, runs: seq<string>, at: seq<(nat, nat)>, k: nat, x: nat, y: nat)
    requires RunsAt(items, |items|, runs, at) && k < |runs| && (x, y) in at
    requires forall l :: 0 <= l < |runs| ==> |runs[l]| < |runs[k]| || (|runs[l]| == |runs[k]| && k <= l)
    ensures y - x < |runs[k]| || (y - x == |runs[k]| && at[k].0 <= x)
  {
    hide TextOf, IsRun;
    var l :| 0 <= l < |at| && at[l] == (x, y);
    FiledAt(items, runs, at, l);
  }

  lemma FiledLongest(items: seq<Item>, runs: seq<string>, at: seq<(nat, nat)>, k: nat)
    requires RunsAt(items, |items|, runs, at) && k < |runs|
    requires forall a: nat, b: nat :: IsRun(items, a, b) ==> (a, b) in at
    requires forall l :: 0 <= l < |runs| ==> |runs[l]| < |runs[k]| || (|runs[l]| == |runs[k]| && k <= l)
    ensures FromRun(items, Some({runs[k]}))
  {
    FiledAt(items, runs, at, k);
    hide TextOf, IsRun, RunsAt;
    var (a, b) := at[k];
    forall x: nat, y: nat | IsRun(items, x, y) ensures y - x < b - a || (y - x == b - a && a <= x) {
      NoLonger(items, runs, at, k, x, y);
    }
    assert LongestRun(items, a, b);
  }

  lemma ChooseIsChoice(items: seq<Item>, best: Option<Literals>, runs: seq<string>, at: seq<(nat, nat)>)
    requires RunsAt(items, |items|, runs, at) && BestSoFar(items, |items|, best)
    requires forall a: nat, b: nat :: IsRun(items, a, b) ==> (a, b) in at
    ensures IsChoice(items, Choose(best, runs))
  {
    BestIsFewest(items, best);
    RunsChosen(items, runs, at);
    hide TextOf, IsRun, FromRun, FromFewest, FewestAt, FromItem, Longest, Solid, RunsAt, BestSoFar;
  }

  /** The longest solid run, if there is one, is the longest run. */
  lemma RunsChosen(items: seq<Item>, runs: seq<string>, at: seq<(nat, nat)>)
    requires RunsAt(items, |items|, runs, at)
    requires forall a: nat, b: nat :: IsRun(items, a, b) ==> (a, b) in at
    ensures runs != [] <==> exists a: nat, b: nat :: IsRun(items, a, b)
    ensures Solid(runs) != [] <==> exists a: nat, b: nat :: IsRun(items, a, b) && b - a >= 3
    ensures runs != [] ==> FromRun(items, Some({Longest(runs)}))
    ensures Solid(runs) != [] ==> Longest(Solid(runs)) == Longest(runs)
  {
    SolidAre(runs);
    if Solid(runs) != [] { SolidLongest(runs); }
    hide TextOf, IsRun, FromRun, Longest, Solid;
    if runs != [] {
      LongestFiled(items, runs, at);
      FiledAt(items, runs, at, 0);
      assert Longest(runs) in runs;
      assert Solid(runs) != [] ==> Longest(Solid(runs)) in Solid(runs);
    } else {
      assert at == [];
    }
  }

  lemma BestIsFewest(items: seq<Item>, best: Option<Literals>)
    requires BestSoFar(items, |items|, best)
    ensures if best.None? then !exists k: nat :: FewestAt(items, k) else FromFewest(items, best) && Useful(best)
    ensures forall k: nat :: FewestAt(items, k) ==> best == FromItem(items[k])
  {
    assert items[..|items|] == items;
    hide FromItem;
  }

  lemma {:induction false} ScanChooses(items: seq<Item>, p: Pattern, n: nat, best: Option<Literals>, runs: seq<string>,
                                       run: string, at: seq<(nat, nat)>)
    requires n <= |items| && Items(p) == items[n..]
    requires BestSoFar(items, n, best) && RunsAt(items, n, runs, at) && OpenRun(items, n, run)
    requires forall k :: 0 <= k < |at| ==> at[k].1 < n || run == ""
    ensures IsChoice(items, Scan(p, best, runs, run))
  {
    hide BestSoFar, RunsAt, OpenRun, IsChoice, Choose, FromItem, Prefer, Flush;
    match p
    case End =>
      assert n == |items|;
      var all := FlushFiles(items, n, runs, run, at);
      RunsInside(items);
      ChooseIsChoice(items, best, Flush(runs, run), all);
    case Then(item, rest) =>
      assert items[n] == item && Items(rest) == items[n + 1..];
      PreferKeepsBest(items, n, best);
      if item.Lit? {
        LitIsUseless(item, best);
        OpenGrows(items, n, run);
        RunsStay(items, n, runs, at, run);
        ScanChooses(items, rest, n + 1, best, runs, run + [Lower(item.c)], at);
      } else {
        var more := FlushFiles(items, n, runs, run, at);
        RunsPassed(items, n, Flush(runs, run), more);
        ScanChooses(items, rest, n + 1, Prefer(best, FromItem(item)), Flush(runs, run), "", more);
      }
  }

  lemma RunsInside(items: seq<Item>)
    ensures forall a: nat, b: nat :: IsRun(items, a, b) ==> b <= |items|
  {
  }

  lemma LitIsUseless(item: Item, best: Option<Literals>)
    requires item.Lit?
    ensures Prefer(best, FromItem(item)) == best
  {
  }

  /** A literal ends no run. */
  lemma RunsStay(items: seq<Item>, n: nat, runs: seq<string>, at: seq<(nat, nat)>, run: string)
    requires n < |items| && items[n].Lit? && RunsAt(items, n, runs, at)
    ensures RunsAt(items, n + 1, runs, at) && forall k :: 0 <= k < |at| ==> at[k].1 < n + 1
  {
    forall k | 0 <= k < |at| ensures RunAt(items, n + 1, runs[k], at[k]) { assert RunAt(items, n, runs[k], at[k]); }
  }

  lemma RunsPassed(items: seq<Item>, n: nat, runs: seq<string>, at: seq<(nat, nat)>)
    requires n < |items| && !items[n].Lit? && RunsAt(items, n, runs, at)
    requires forall a: nat, b: nat :: IsRun(items, a, b) && b <= n ==> (a, b) in at
    ensures RunsAt(items, n + 1, runs, at) && OpenRun(items, n + 1, "")
  {
    forall k | 0 <= k < |at| ensures RunAt(items, n + 1, runs[k], at[k]) { assert RunAt(items, n, runs[k], at[k]); }
  }

  /** The extraction chooses the literals that the items of the pattern say. */
  lemma GuaranteedIsChoice(p: Pattern)
    ensures IsChoice(Items(p), Guaranteed(p))
  {
    var items := Items(p);
    assert items[0..] == items;
    ScanChooses(items, p, 0, None, [], "", []);
  }

  // ------------------------------------------------------- alternatives

  function AltList(alts: Alternatives): seq<Pattern> {
    match alts
    case NoMore => []
    case Alt(first, more) => [first] + AltList(more)
  }

  /** Alternatives prove something only if each of them does, and then all their literals together. */
  lemma {:induction false} AlternativesProve(alts: Alternatives, union: Literals)
    ensures var list := AltList(alts);
            if exists k :: 0 <= k < |list| && !Useful(Guaranteed(list[k])) then FromAlts(alts, union) == {}
            else forall w :: w in FromAlts(alts, union) <==>
                   w in union || exists k :: 0 <= k < |list| && w in Guaranteed(list[k]).value
  {
    if alts.Alt? {
      var lits := Guaranteed(alts.first);
      var list, rest := AltList(alts), AltList(alts.more);
      hide Guaranteed;
      if Useful(lits) {
        AlternativesProve(alts.more, union + lits.value);
        assert forall k :: 0 <= k < |rest| ==> list[k + 1] == rest[k];
        assert list[0] == alts.first;
        forall w ensures w in FromAlts(alts, union) <==> w in FromAlts(alts.more, union + lits.value) {}
        if k :| 0 <= k < |list| && !Useful(Guaranteed(list[k])) {
          assert rest[k - 1] == list[k];
        } else {
          forall w ensures (exists k :: 0 <= k < |list| && w in Guaranteed(list[k]).value) <==>
                             w in lits.value || exists k :: 0 <= k < |rest| && w in Guaranteed(rest[k]).value
          {
            if k :| 0 <= k < |list| && w in Guaranteed(list[k]).value {
              if k > 0 { assert rest[k - 1] == list[k]; }
            }
            if w in lits.value { assert w in Guaranteed(list[0]).value; }
            if k :| 0 <= k < |rest| && w in Guaranteed(rest[k]).value { assert list[k + 1] == rest[k]; }
          }
        }
      } else {
        assert list[0] == alts.first;
      }
    }
  }
}
