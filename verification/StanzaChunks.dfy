/** Cutting the stanza tree of a brace-style config into pieces (rag.py). A stanza is emitted
    whole when it is small or has no kids; otherwise its own statements are emitted in runs and
    its kids one by one. `Emitted` says which pieces those are. */
module StanzaChunks {
  import opened BraceTree
  import opened ChunkWindows
  import opened Ordering

  const SPLIT_STANZA_LINES: nat := 15

  /** A stretch of lines to be emitted under a heading. */
  datatype Piece = Piece(start: nat, end: nat, heading: string)

  function KidPath(path: string, kid: Node): string {
    path + " > " + kid.head
  }

  /** Emitted whole: no kids, or small enough; top-level stanzas are split sooner. */
  predicate Whole(n: Node, path: string) {
    n.kids == [] || n.end - n.start + 1 <= (if path == n.head then SPLIT_STANZA_LINES else MAX_CHUNK_LINES)
  }

  /** A longest stretch of consecutive statements. */
  ghost predicate IsRun(direct: seq<nat>, lo: nat, hi: nat) {
    && lo <= hi && (forall x :: lo <= x <= hi ==> x in direct)
    && hi + 1 !in direct && (lo > 0 ==> lo - 1 !in direct)
  }

  ghost predicate KidPiece(n: Node, path: string, p: Piece, k: nat)
    requires k < |n.kids|
    decreases n, 0
  {
    Emitted(n.kids[k], KidPath(path, n.kids[k]), p)
  }

  /** What is emitted for a stanza: itself, or its runs of statements and what its kids emit. */
  ghost predicate Emitted(n: Node, path: string, p: Piece)
    decreases n, 1
  {
    if Whole(n, path) then p == Piece(n.start, n.end, path)
    else (p.heading == path && IsRun(n.direct, p.start, p.end))
         || exists k: nat :: k < |n.kids| && KidPiece(n, path, p, k)
  }

  ghost predicate Covered(runs: seq<(nat, nat)>, x: nat) {
    exists r :: r in runs && r.0 <= x <= r.1
  }

  ghost predicate AllRuns(direct: seq<nat>, runs: seq<(nat, nat)>) {
    && (forall r :: r in runs ==> IsRun(direct, r.0, r.1))
    && (forall a, b :: 0 <= a < b < |runs| ==> runs[a].1 < runs[b].0)
  }

  /** Runs that share a line are the same run. */
  lemma RunsMeet(direct: seq<nat>, lo: nat, hi: nat, lo2: nat, hi2: nat, x: nat)
    requires IsRun(direct, lo, hi) && IsRun(direct, lo2, hi2) && lo <= x <= hi && lo2 <= x <= hi2
    ensures lo == lo2 && hi == hi2
  {
    assert lo < lo2 ==> lo2 - 1 in direct;
    assert lo2 < lo ==> lo - 1 in direct;
    assert hi < hi2 ==> hi + 1 in direct;
    assert hi2 < hi ==> hi2 + 1 in direct;
  }

  lemma CoveredRuns(direct: seq<nat>, runs: seq<(nat, nat)>, lo: nat, hi: nat)
    requires AllRuns(direct, runs) && IsRun(direct, lo, hi) && Covered(runs, lo)
    ensures (lo, hi) in runs
  {
    var r :| r in runs && r.0 <= lo <= r.1;
    RunsMeet(direct, r.0, r.1, lo, hi, lo);
    assert r == (lo, hi);
  }

  /** The line after a run: nothing of direct in between. */
  lemma RunStops(direct: seq<nat>, i: nat)
    requires Ascending(direct) && 0 < i <= |direct|
    requires i < |direct| ==> direct[i] != direct[i - 1] + 1
    ensures direct[i - 1] + 1 !in direct
    ensures i < |direct| ==> direct[i] > direct[i - 1] + 1 && direct[i] - 1 !in direct
  {
    forall k | 0 <= k < |direct|
      ensures direct[k] != direct[i - 1] + 1 && (i < |direct| ==> direct[k] != direct[i] - 1)
    {
      assert k < i - 1 ==> direct[k] < direct[i - 1];
      assert i < |direct| ==> direct[i - 1] < direct[i] && (k > i ==> direct[i] < direct[k]);
    }
  }

  /** The first i lines are in runs, but for the open run from lo to the line before i. */
  ghost predicate Grouping(direct: seq<nat>, i: nat, runs: seq<(nat, nat)>, lo: nat) {
    && 0 < i <= |direct| && lo <= direct[i - 1] && AllRuns(direct, runs)
    && (forall x: nat :: lo <= x <= direct[i - 1] ==> x in direct)
    && (lo > 0 ==> lo - 1 !in direct)
    && (forall r :: r in runs ==> r.1 < lo)
    && (forall k :: 0 <= k < i && direct[k] < lo ==> Covered(runs, direct[k]))
  }

  lemma RunCloses(direct: seq<nat>, i: nat, runs: seq<(nat, nat)>, lo: nat)
    requires Ascending(direct) && Grouping(direct, i, runs, lo)
    requires i < |direct| ==> direct[i] != direct[i - 1] + 1
    ensures AllRuns(direct, runs + [(lo, direct[i - 1])])
    ensures forall k :: 0 <= k < i ==> Covered(runs + [(lo, direct[i - 1])], direct[k])
    ensures i < |direct| ==> Grouping(direct, i + 1, runs + [(lo, direct[i - 1])], direct[i])
  {
    RunStops(direct, i);
    AddRun(direct, runs, i, lo, direct[i - 1]);
  }

  lemma GroupingCovers(direct: seq<nat>, runs: seq<(nat, nat)>)
    requires AllRuns(direct, runs) && forall k :: 0 <= k < |direct| ==> Covered(runs, direct[k])
    ensures forall lo: nat, hi: nat :: IsRun(direct, lo, hi) ==> (lo, hi) in runs
  {
    forall lo: nat, hi: nat | IsRun(direct, lo, hi) ensures (lo, hi) in runs {
      assert lo in direct;
      CoveredRuns(direct, runs, lo, hi);
    }
  }

  /** The inner loop of `emit`: statements grouped into runs. */
  method SplitRuns(direct: seq<nat>) returns (runs: seq<(nat, nat)>)
    requires Ascending(direct)
    ensures AllRuns(direct, runs)
    ensures forall lo: nat, hi: nat :: IsRun(direct, lo, hi) ==> (lo, hi) in runs
  {
    runs := [];
    if direct == [] {
      GroupingCovers(direct, runs);
      return;
    }
    var lo := direct[0];
    for i := 1 to |direct|
      invariant Grouping(direct, i, runs, lo)
    {
      if direct[i] != direct[i - 1] + 1 {
        RunCloses(direct, i, runs, lo);
        runs, lo := runs + [(lo, direct[i - 1])], direct[i];
      }
    }
    RunCloses(direct, |direct|, runs, lo);
    runs := runs + [(lo, direct[|direct| - 1])];
    GroupingCovers(direct, runs);
  }

  lemma AddRun(direct: seq<nat>, runs: seq<(nat, nat)>, i: nat, lo: nat, hi: nat)
    requires Ascending(direct) && AllRuns(direct, runs) && IsRun(direct, lo, hi)
    requires 0 < i <= |direct| && hi == direct[i - 1]
    requires forall r :: r in runs ==> r.1 < lo
    requires forall k :: 0 <= k < i && direct[k] < lo ==> Covered(runs, direct[k])
    ensures AllRuns(direct, runs + [(lo, hi)])
    ensures forall k :: 0 <= k < i ==> Covered(runs + [(lo, hi)], direct[k])
  {
    var more := runs + [(lo, hi)];
    forall a, b | 0 <= a < b < |more| ensures more[a].1 < more[b].0 {
      if b == |runs| { assert runs[a] in runs; }
    }
    forall k | 0 <= k < i ensures Covered(more, direct[k]) {
      if direct[k] < lo {
        assert Covered(runs, direct[k]);
        var r :| r in runs && r.0 <= direct[k] <= r.1;
        assert r in more;
      } else {
        assert k < i - 1 ==> direct[k] < direct[i - 1];
        assert (lo, hi) in more;
      }
    }
  }

  // ------------------------------------------------------------ cutting a stanza

  ghost predicate Disjoint(p: Piece, q: Piece) {
    p.end < q.start || q.end < p.start
  }

  ghost predicate ApartAt(pieces: seq<Piece>, a: int, b: int) {
    0 <= a < b < |pieces| ==> Disjoint(pieces[a], pieces[b])
  }

  ghost predicate Apart(pieces: seq<Piece>) {
    forall a, b :: ApartAt(pieces, a, b)
  }

  ghost predicate Inside(p: Piece, lo: nat, hi: nat) {
    lo <= p.start <= p.end <= hi
  }

  lemma ApartJoin(a: seq<Piece>, b: seq<Piece>)
    requires Apart(a) && Apart(b)
    requires forall p, q :: p in a && q in b ==> Disjoint(p, q)
    ensures Apart(a + b)
  {
    forall i, j ensures ApartAt(a + b, i, j) {
      assert ApartAt(a, i, j) && ApartAt(b, i - |a|, j - |a|);
    }
  }

  function RunPieces(runs: seq<(nat, nat)>, path: string): seq<Piece> {
    seq(|runs|, k requires 0 <= k < |runs| => Piece(runs[k].0, runs[k].1, path))
  }

  /** Pieces made of n's own statements. */
  ghost predicate OwnPiece(n: Node, path: string, p: Piece) {
    p.heading == path && IsRun(n.direct, p.start, p.end)
  }

  lemma OwnInside(n: Node, path: string, p: Piece)
    requires Fits(n) && OwnPiece(n, path, p)
    ensures Inside(p, n.start, n.end)
    ensures forall k :: 0 <= k < |n.kids| ==> p.end < n.kids[k].start || n.kids[k].end < p.start
  {
    assert p.start in n.direct && p.end in n.direct;
    assert LineFits(n, p.start) && LineFits(n, p.end);
    forall k: nat | k < |n.kids| ensures p.end < n.kids[k].start || n.kids[k].end < p.start {
      assert KidFits(n, k);
      assert Fits(n.kids[k]);
      var x := n.kids[k].start;
      assert p.start <= x <= p.end ==> x in n.direct;
      assert x in n.direct ==> LineFits(n, x);
    }
  }

  lemma RunPiecesAre(n: Node, path: string, runs: seq<(nat, nat)>)
    requires Fits(n) && AllRuns(n.direct, runs)
    requires forall lo: nat, hi: nat :: IsRun(n.direct, lo, hi) ==> (lo, hi) in runs
    ensures Apart(RunPieces(runs, path))
    ensures forall p :: p in RunPieces(runs, path) <==> OwnPiece(n, path, p)
  {
    var pieces := RunPieces(runs, path);
    forall a, b ensures ApartAt(pieces, a, b) {
      if 0 <= a < b < |pieces| {
        assert runs[a].1 < runs[b].0;
      }
    }
    forall p ensures p in pieces <==> OwnPiece(n, path, p) {
      if p in pieces {
        var k :| 0 <= k < |pieces| && pieces[k] == p;
        assert runs[k] in runs;
      }
      if OwnPiece(n, path, p) {
        var k :| 0 <= k < |runs| && runs[k] == (p.start, p.end);
        assert pieces[k] == p;
      }
    }
  }

  /** The pieces of the first m kids and n's own, and nothing else. */
  ghost predicate EmittedSoFar(n: Node, path: string, pieces: seq<Piece>, m: nat)
    requires m <= |n.kids|
  {
    && Apart(pieces)
    && forall p :: p in pieces <==> OwnPiece(n, path, p) || FromKids(n, path, p, m)
  }

  ghost predicate FromKids(n: Node, path: string, p: Piece, m: nat)
    requires m <= |n.kids|
  {
    exists k: nat :: k < m && KidPiece(n, path, p, k)
  }

  lemma FromNextKid(n: Node, path: string, p: Piece, m: nat)
    requires m < |n.kids|
    ensures FromKids(n, path, p, m + 1) <==> FromKids(n, path, p, m) || KidPiece(n, path, p, m)
  {
    if FromKids(n, path, p, m) {
      var k: nat :| k < m && KidPiece(n, path, p, k);
      assert k < m + 1;
    }
  }

  lemma {:induction false} EmittedInside(n: Node, path: string, p: Piece)
    requires Fits(n) && Emitted(n, path, p)
    ensures Inside(p, n.start, n.end)
    decreases n
  {
    if !Whole(n, path) {
      if OwnPiece(n, path, p) {
        OwnInside(n, path, p);
      } else {
        var k: nat :| k < |n.kids| && KidPiece(n, path, p, k);
        assert KidFits(n, k);
        EmittedInside(n.kids[k], KidPath(path, n.kids[k]), p);
      }
    }
  }

  lemma NextKidApart(n: Node, path: string, pieces: seq<Piece>, m: nat, more: seq<Piece>)
    requires Fits(n) && m < |n.kids| && EmittedSoFar(n, path, pieces, m)
    requires Apart(more)
    requires forall p :: p in more <==> KidPiece(n, path, p, m)
    ensures EmittedSoFar(n, path, pieces + more, m + 1)
  {
    forall p, q | p in pieces && q in more ensures Disjoint(p, q) {
      assert KidPiece(n, path, q, m) && KidFits(n, m);
      EmittedInside(n.kids[m], KidPath(path, n.kids[m]), q);
      if OwnPiece(n, path, p) {
        OwnInside(n, path, p);
      } else {
        var k: nat :| k < m && KidPiece(n, path, p, k);
        assert KidFits(n, k);
        EmittedInside(n.kids[k], KidPath(path, n.kids[k]), p);
        assert n.kids[k].end < n.kids[m].start;
      }
    }
    ApartJoin(pieces, more);
    forall p ensures p in pieces + more <==> OwnPiece(n, path, p) || FromKids(n, path, p, m + 1) {
      FromNextKid(n, path, p, m);
      assert p in pieces + more <==> p in pieces || p in more;
    }
  }

  /** `emit`: exactly the pieces of the stanza, no two of them sharing a line. */
  method Emit(n: Node, path: string) returns (pieces: seq<Piece>)
    requires Fits(n)
    ensures Apart(pieces)
    ensures forall p :: p in pieces <==> Emitted(n, path, p)
    decreases n
  {
    if Whole(n, path) {
      return [Piece(n.start, n.end, path)];
    }
    var runs := SplitRuns(n.direct);
    pieces := RunPieces(runs, path);
    RunPiecesAre(n, path, runs);
    for m := 0 to |n.kids|
      invariant EmittedSoFar(n, path, pieces, m)
    {
      assert KidFits(n, m);
      var more := Emit(n.kids[m], KidPath(path, n.kids[m]));
      NextKidApart(n, path, pieces, m, more);
      pieces := pieces + more;
    }
  }

  // ------------------------------------------------------------- nothing is lost

  lemma {:induction false} RunUp(direct: seq<nat>, x: nat, hi: nat) returns (y: nat)
    requires x in direct && forall z :: z in direct ==> z <= hi
    ensures y >= x && (forall z: nat :: x <= z <= y ==> z in direct) && y + 1 !in direct
    decreases hi - x
  {
    if x + 1 in direct {
      y := RunUp(direct, x + 1, hi);
    } else {
      y := x;
    }
  }

  lemma {:induction false} RunDown(direct: seq<nat>, x: nat) returns (y: nat)
    requires x in direct
    ensures y <= x && (forall z: nat :: y <= z <= x ==> z in direct) && (y > 0 ==> y - 1 !in direct)
  {
    if x > 0 && x - 1 in direct {
      y := RunDown(direct, x - 1);
    } else {
      y := x;
    }
  }

  lemma {:induction false} HeldInside(n: Node, j: nat)
    requires Fits(n) && Holds(n, j)
    ensures n.start <= j <= n.end
    decreases n
  {
    if j in n.direct {
      assert LineFits(n, j);
    } else {
      var k :| 0 <= k < |n.kids| && Holds(n.kids[k], j);
      assert KidFits(n, k);
      HeldInside(n.kids[k], j);
    }
  }

  /** Every statement of a stanza is in one of its pieces. */
  lemma {:induction false} HeldIsEmitted(n: Node, path: string, j: nat) returns (p: Piece)
    requires Fits(n) && Holds(n, j)
    ensures Emitted(n, path, p) && p.start <= j <= p.end
    decreases n
  {
    if Whole(n, path) {
      HeldInside(n, j);
      p := Piece(n.start, n.end, path);
    } else if j in n.direct {
      forall z | z in n.direct ensures z <= n.end { assert LineFits(n, z); }
      var hi := RunUp(n.direct, j, n.end);
      var lo := RunDown(n.direct, j);
      p := Piece(lo, hi, path);
      assert IsRun(n.direct, lo, hi);
    } else {
      var k :| 0 <= k < |n.kids| && Holds(n.kids[k], j);
      assert KidFits(n, k);
      p := HeldIsEmitted(n.kids[k], KidPath(path, n.kids[k]), j);
      assert KidPiece(n, path, p, k);
    }
  }

  // ------------------------------------------------------- which stanzas are split

  /** A stanza of the top level, one of its kids, one of that kid's kids and so on. */
  ghost predicate Nested(ns: seq<Node>) {
    ns != [] && forall i :: 0 <= i < |ns| - 1 ==> ns[i + 1] in ns[i].kids
  }

  /** The heads on the way down. */
  function Headings(ns: seq<Node>): string
    requires ns != []
  {
    if |ns| == 1 then ns[0].head else Headings(ns[..|ns| - 1]) + " > " + ns[|ns| - 1].head
  }

  /** With kids, and of more than fifteen lines at the top level or of more than sixty below. */
  predicate IsSplit(ns: seq<Node>, i: nat)
    requires i < |ns|
  {
    ns[i].kids != [] && ns[i].end - ns[i].start + 1 > if i == 0 then 15 else 60
  }

  /** The last stanza is cut out of split ones: whole, or a run of its own statements if it is
      split too; its heading names the way down. */
  ghost predicate PieceAt(ns: seq<Node>, p: Piece) {
    && Nested(ns) && (forall i :: 0 <= i < |ns| - 1 ==> IsSplit(ns, i))
    && var last := ns[|ns| - 1];
       && p.heading == Headings(ns)
       && if IsSplit(ns, |ns| - 1) then IsRun(last.direct, p.start, p.end)
          else p.start == last.start && p.end == last.end
  }

  lemma {:induction false} HeadingIsLonger(ns: seq<Node>)
    requires ns != []
    ensures Headings(ns) == ns[|ns| - 1].head <==> |ns| == 1
  {
    if |ns| > 1 {
      assert |Headings(ns)| == |Headings(ns[..|ns| - 1])| + 3 + |ns[|ns| - 1].head|;
    }
  }

  lemma WholeIff(ns: seq<Node>)
    requires ns != []
    ensures Whole(ns[|ns| - 1], Headings(ns)) <==> !IsSplit(ns, |ns| - 1)
  {
    HeadingIsLonger(ns);
  }

  lemma KidHeading(ns: seq<Node>, kid: Node)
    requires ns != []
    ensures Headings(ns + [kid]) == KidPath(Headings(ns), kid)
  {
    assert (ns + [kid])[..|ns|] == ns;
    assert KidPath(Headings(ns), kid) == Headings(ns) + " > " + kid.head;
  }

  /** Every piece has its place in the tree. */
  lemma {:induction false} EmittedHasPlace(ns: seq<Node>, p: Piece) returns (ms: seq<Node>)
    requires Nested(ns) && forall i :: 0 <= i < |ns| - 1 ==> IsSplit(ns, i)
    requires Emitted(ns[|ns| - 1], Headings(ns), p)
    ensures PieceAt(ms, p) && ms[0] == ns[0]
    decreases ns[|ns| - 1]
  {
    hide IsRun;
    var n := ns[|ns| - 1];
    ms := ns;
    WholeIff(ns);
    if !Whole(n, Headings(ns)) && !(p.heading == Headings(ns) && IsRun(n.direct, p.start, p.end)) {
      var k: nat :| k < |n.kids| && KidPiece(n, Headings(ns), p, k);
      KidHeading(ns, n.kids[k]);
      var down := ns + [n.kids[k]];
      forall i | 0 <= i < |down| - 1 ensures down[i + 1] in down[i].kids && IsSplit(down, i) {
        assert i < |ns| - 1 ==> IsSplit(ns, i);
      }
      ms := EmittedHasPlace(down, p);
    }
  }

  /** And every such place gives its pieces. */
  lemma {:induction false} PlaceIsEmitted(ms: seq<Node>, p: Piece, i: nat)
    requires PieceAt(ms, p) && i < |ms|
    ensures Emitted(ms[i], Headings(ms[..i + 1]), p)
    decreases |ms| - i
  {
    hide IsRun, Headings;
    WholeIff(ms[..i + 1]);
    assert IsSplit(ms[..i + 1], i) <==> IsSplit(ms, i);
    if i == |ms| - 1 {
      assert ms[..i + 1] == ms;
    } else {
      PlaceIsEmitted(ms, p, i + 1);
      var k :| 0 <= k < |ms[i].kids| && ms[i].kids[k] == ms[i + 1];
      assert ms[..i + 2] == ms[..i + 1] + [ms[i + 1]];
      KidHeading(ms[..i + 1], ms[i + 1]);
      assert KidPiece(ms[i], Headings(ms[..i + 1]), p, k);
    }
  }

  /** The pieces of a top-level stanza, read off the tree. */
  lemma EmittedIff(top: Node, p: Piece)
    ensures Emitted(top, top.head, p) <==> exists ms :: PieceAt(ms, p) && ms[0] == top
  {
    if Emitted(top, top.head, p) {
      var ms := EmittedHasPlace([top], p);
    }
    if ms :| PieceAt(ms, p) && ms[0] == top {
      PlaceIsEmitted(ms, p, 0);
      assert ms[..1] == [top];
    }
  }
}
