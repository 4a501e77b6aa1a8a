/** The iterative cut-vertex search of analytics.py: an explicit stack of neighbour iterators instead
    of recursion. `Running` is what holds between any two turns of its loop: the search forest so
    far (`Forest`), the stack as the chain of open vertices (`Stacked`), what each frame's iterator
    has passed (`GoodFrames`), the child counters (`Counted`) and the flags (`CutsMatch`). A turn
    discovers a vertex, lowers a low-link, or pops a frame; each has its own step lemmas, and the
    three methods at the end put them together. */
module ArticulationPoints {
  import opened Options
  import opened DfsForest
  import opened Ordering

  /** A stack entry: a vertex and its half-consumed neighbour iterator. */
  datatype Frame = Frame(node: nat, nbrs: seq<nat>, pos: nat)

  // -------------------------------------------------------------- single steps

  ghost predicate Open(s: Search, v: nat) {
    v in s.disc && v !in s.fin
  }

  ghost function Discover(s: Search, v: nat, p: Option<nat>): Search {
    var now := s.timer + 1;
    Search(s.disc[v := now], s.low[v := now], s.parent[v := p], s.fin, now)
  }

  ghost function Lower(s: Search, v: nat, d: nat): Search
    requires v in s.low
  {
    s.(low := s.low[v := if d < s.low[v] then d else s.low[v]])
  }

  ghost function Close(s: Search, v: nat): Search {
    s.(fin := s.fin[v := s.timer])
  }

  /** The open vertices form one chain of parents that ends in p. */
  ghost predicate ChainTo(s: Search, p: Option<nat>) {
    && (forall x :: Open(s, x) ==> p.Some? && Open(s, p.value) && s.disc[x] <= s.disc[p.value])
    && (forall x, q :: Open(s, x) && s.ChildOf(x, q) ==> Open(s, q))
    && (p.Some? ==> Open(s, p.value))
  }

  /** What every step keeps: entries stay put and subtrees only grow. */
  ghost predicate Extends(s: Search, t: Search) {
    && (forall x :: x in s.disc ==> x in t.disc && t.disc[x] == s.disc[x] && s.Fin(x) <= t.Fin(x))
    && (forall x :: x in s.parent ==> x in t.parent && t.parent[x] == s.parent[x])
  }

  lemma LowFoundGrows(adj: Graph, s: Search, t: Search, u: nat)
    requires Tables(adj, s) && Tables(adj, t) && Extends(s, t)
    requires u in s.disc && LowFound(adj, s, u) && t.low[u] == s.low[u]
    ensures LowFound(adj, t, u)
  {
    if s.low[u] != s.disc[u] {
      var w, x :| LowSource(adj, s, u, w, x);
      assert LowSource(adj, t, u, w, x);
    }
  }

  // ------------------------------------------------------------------ discover

  lemma DiscoverTables(adj: Graph, s: Search, v: nat, p: Option<nat>)
    requires Tables(adj, s) && v in adj && v !in s.disc
    ensures Tables(adj, Discover(s, v, p))
  {
  }

  lemma DiscoverExtends(adj: Graph, s: Search, v: nat, p: Option<nat>)
    requires Tables(adj, s) && Clocks(s) && v !in s.disc
    ensures Extends(s, Discover(s, v, p)) && Clocks(Discover(s, v, p))
  {
    var t := Discover(s, v, p);
    assert forall x :: x in s.disc ==> t.Fin(x) == if x in s.fin then s.Fin(x) else s.timer + 1;
  }

  lemma DiscoverDistinct(s: Search, v: nat, p: Option<nat>)
    requires Clocks(s) && DistinctClocks(s) && v !in s.disc
    ensures DistinctClocks(Discover(s, v, p))
  {
  }

  lemma DiscoverKeepsParentEdges(adj: Graph, s: Search, v: nat, p: Option<nat>)
    requires Tables(adj, s) && Clocks(s) && ParentEdges(adj, s) && v in adj && v !in s.disc
    requires ChainTo(s, p) && (p.Some? ==> v in adj[p.value])
    ensures Tables(adj, Discover(s, v, p)) && ParentEdges(adj, Discover(s, v, p))
  {
    DiscoverTables(adj, s, v, p);
    var t := Discover(s, v, p);
    forall x, q | t.ChildOf(x, q)
      ensures q in t.disc && x in adj[q] && t.disc[q] < t.disc[x] && t.Fin(x) <= t.Fin(q)
    {
      if x != v {
        assert s.ChildOf(x, q);
      }
    }
  }

  lemma DiscoverKeepsNearest(adj: Graph, s: Search, v: nat, p: Option<nat>)
    requires Tables(adj, s) && Clocks(s) && ParentNearest(s) && v !in s.disc
    requires ChainTo(s, p)
    ensures ParentNearest(Discover(s, v, p))
  {
    forall x, u ensures NearestAt(Discover(s, v, p), x, u)
    {
      assert NearestAt(s, x, u);
      assert Open(s, x) ==> p.Some? && s.disc[x] <= s.disc[p.value];
      DiscoverKeepsNearestAt(s, v, p, x, u);
    }
  }

  lemma DiscoverKeepsNearestAt(s: Search, v: nat, p: Option<nat>, x: nat, u: nat)
    requires v !in s.disc && v !in s.fin && NearestAt(s, x, u)
    requires x in s.disc ==> s.disc[x] <= s.Fin(x) <= s.timer
    requires u in s.disc ==> s.disc[u] <= s.timer
    requires p.Some? ==> p.value in s.disc
    requires Open(s, x) ==> p.Some? && s.disc[x] <= s.disc[p.value]
    ensures NearestAt(Discover(s, v, p), x, u)
  {
  }

  lemma DiscoverKeepsNoCross(adj: Graph, s: Search, v: nat, p: Option<nat>)
    requires Undirected(adj) && Tables(adj, s) && Clocks(s) && NoCrossEdges(adj, s) && v in adj && v !in s.disc
    ensures Tables(adj, Discover(s, v, p)) && NoCrossEdges(adj, Discover(s, v, p))
  {
    DiscoverTables(adj, s, v, p);
    DiscoverExtends(adj, s, v, p);
    var t := Discover(s, v, p);
    forall w, x | w in t.disc && x in t.disc && x in adj[w] && t.disc[w] < t.disc[x]
      ensures t.disc[x] <= t.Fin(w)
    {
      if x == v {
        assert w !in s.fin;
      }
    }
  }

  lemma DiscoverKeepsLowsFound(adj: Graph, s: Search, v: nat, p: Option<nat>)
    requires Tables(adj, s) && Clocks(s) && v in adj && v !in s.disc && LowsFound(adj, s)
    ensures Tables(adj, Discover(s, v, p)) && LowsFound(adj, Discover(s, v, p))
  {
    DiscoverTables(adj, s, v, p);
    DiscoverExtends(adj, s, v, p);
    var t := Discover(s, v, p);
    forall u | u in t.disc
      ensures t.low[u] <= t.disc[u] && LowFound(adj, t, u)
    {
      if u != v { LowFoundGrows(adj, s, t, u); }
    }
  }

  lemma DiscoverKeepsCovers(adj: Graph, s: Search, v: nat, p: Option<nat>)
    requires Tables(adj, s) && NoCrossEdges(adj, s) && ParentEdges(adj, s) && v in adj && v !in s.disc
    requires LowsCoverEdges(adj, s) && LowsCoverChildren(s)
    ensures Tables(adj, Discover(s, v, p)) && LowsCoverEdges(adj, Discover(s, v, p))
    ensures LowsCoverChildren(Discover(s, v, p))
  {
    DiscoverTables(adj, s, v, p);
    var t := Discover(s, v, p);
    forall u, x | u in t.fin && Sees(adj, t, u, x)
      ensures t.low[u] <= t.disc[x]
    {
      assert Sees(adj, s, u, x);
    }
    forall c, u | t.ClosedChild(c, u) && u in t.low && c in t.low
      ensures t.low[u] <= t.low[c]
    {
      assert s.ClosedChild(c, u) && s.ChildOf(c, u);
    }
  }

  lemma DiscoverKeepsForest(adj: Graph, s: Search, v: nat, p: Option<nat>)
    requires Undirected(adj) && Forest(adj, s) && v in adj && v !in s.disc
    requires ChainTo(s, p) && (p.Some? ==> v in adj[p.value])
    ensures Forest(adj, Discover(s, v, p))
  {
    DiscoverTables(adj, s, v, p);
    DiscoverExtends(adj, s, v, p);
    DiscoverDistinct(s, v, p);
    DiscoverKeepsParentEdges(adj, s, v, p);
    DiscoverKeepsNearest(adj, s, v, p);
    DiscoverKeepsNoCross(adj, s, v, p);
    DiscoverKeepsLowsFound(adj, s, v, p);
    DiscoverKeepsCovers(adj, s, v, p);
  }

  // --------------------------------------------------------------------- lower

  /** Only `low` and `fin` differ, and `fin` in a way that no subtree changes. */
  ghost predicate SameShape(s: Search, t: Search) {
    && t.disc == s.disc && t.parent == s.parent && t.timer == s.timer
    && (forall v :: t.Fin(v) == s.Fin(v))
  }

  lemma SameShapeKeepsShape(adj: Graph, s: Search, t: Search)
    requires Tables(adj, s) && Tables(adj, t) && SameShape(s, t)
    requires Clocks(s) && DistinctClocks(s) && ParentEdges(adj, s) && ParentNearest(s)
    ensures Clocks(t) && DistinctClocks(t) && ParentEdges(adj, t) && ParentNearest(t)
  {
    assert forall c, u :: t.ChildOf(c, u) <==> s.ChildOf(c, u);
    forall x, v ensures NearestAt(t, x, v) {
      assert NearestAt(s, x, v);
    }
  }

  lemma SameShapeKeepsNoCross(adj: Graph, s: Search, t: Search)
    requires Tables(adj, s) && Tables(adj, t) && SameShape(s, t) && NoCrossEdges(adj, s)
    requires forall w, x :: w in t.fin && w !in s.fin && x in adj[w] ==> x in s.disc
    ensures NoCrossEdges(adj, t)
  {
  }

  lemma LowerKeepsLowsFound(adj: Graph, s: Search, v: nat, w: nat, x: nat)
    requires Tables(adj, s) && LowsFound(adj, s) && Open(s, v)
    requires Sees(adj, s, w, x) && s.Above(v, w)
    ensures var t := Lower(s, v, s.disc[x]); Tables(adj, t) && SameShape(s, t) && LowsFound(adj, t)
  {
    var t := Lower(s, v, s.disc[x]);
    forall u | u in t.disc
      ensures t.low[u] <= t.disc[u] && LowFound(adj, t, u)
    {
      if u == v && t.low[v] == s.disc[x] {
        assert LowSource(adj, t, v, w, x);
      } else {
        LowFoundGrows(adj, s, t, u);
      }
    }
  }

  /** low[v] may drop to the clock of anything that v or its subtree sees. */
  lemma LowerKeepsForest(adj: Graph, s: Search, v: nat, w: nat, x: nat)
    requires Forest(adj, s) && Open(s, v)
    requires Sees(adj, s, w, x) && s.Above(v, w)
    ensures Forest(adj, Lower(s, v, s.disc[x]))
  {
    var t := Lower(s, v, s.disc[x]);
    LowerKeepsLowsFound(adj, s, v, w, x);
    SameShapeKeepsShape(adj, s, t);
    SameShapeKeepsNoCross(adj, s, t);
    LowerKeepsCovers(adj, s, v, s.disc[x]);
  }

  lemma LowerKeepsCovers(adj: Graph, s: Search, v: nat, d: nat)
    requires Tables(adj, s) && Open(s, v) && LowsCoverEdges(adj, s) && LowsCoverChildren(s)
    ensures var t := Lower(s, v, d);
            Tables(adj, t) && LowsCoverEdges(adj, t) && LowsCoverChildren(t)
  {
    var t := Lower(s, v, d);
    forall u, y | u in t.fin && Sees(adj, t, u, y)
      ensures t.low[u] <= t.disc[y]
    {
      assert Sees(adj, s, u, y);
    }
    forall c, u | t.ClosedChild(c, u) && u in t.low && c in t.low
      ensures t.low[u] <= t.low[c]
    {
      assert s.ClosedChild(c, u);
    }
  }

  /** ... and to the low-link of one of its children. */
  lemma LowerByChild(adj: Graph, s: Search, v: nat, c: nat)
    requires Forest(adj, s) && Open(s, v) && s.ChildOf(c, v)
    ensures Forest(adj, Lower(s, v, s.low[c]))
  {
    if s.low[c] == s.disc[c] {
      LowerIsIdle(adj, s, v, c);
    } else {
      var w, x := SourceBelow(adj, s, v, c);
      LowerKeepsForest(adj, s, v, w, x);
    }
  }

  lemma LowerIsIdle(adj: Graph, s: Search, v: nat, c: nat)
    requires Tables(adj, s) && ParentEdges(adj, s) && LowsFound(adj, s)
    requires s.ChildOf(c, v) && s.low[c] == s.disc[c]
    ensures v in s.low && Lower(s, v, s.low[c]) == s
  {
    assert s.low[v] <= s.disc[v];
    assert s.low[v := s.low[v]] == s.low;
  }

  lemma SourceBelow(adj: Graph, s: Search, v: nat, c: nat) returns (w: nat, x: nat)
    requires Tables(adj, s) && ParentEdges(adj, s) && LowsFound(adj, s)
    requires s.ChildOf(c, v) && s.low[c] != s.disc[c]
    ensures Sees(adj, s, w, x) && v in s.disc && s.Above(v, w) && s.low[c] == s.disc[x]
  {
    assert LowFound(adj, s, c);
    w, x :| LowSource(adj, s, c, w, x);
  }

  // --------------------------------------------------------------------- close

  lemma CloseKeepsLowsFound(adj: Graph, s: Search, v: nat)
    requires Tables(adj, s) && Open(s, v) && LowsFound(adj, s)
    ensures var t := Close(s, v); Tables(adj, t) && SameShape(s, t) && LowsFound(adj, t)
  {
    var t := Close(s, v);
    forall u | u in t.disc
      ensures t.low[u] <= t.disc[u] && LowFound(adj, t, u)
    {
      LowFoundGrows(adj, s, t, u);
    }
  }

  lemma CloseKeepsCovers(adj: Graph, s: Search, v: nat)
    requires Tables(adj, s) && Open(s, v) && LowsCoverEdges(adj, s) && LowsCoverChildren(s)
    requires forall x :: Sees(adj, s, v, x) ==> s.low[v] <= s.disc[x]
    requires forall u :: s.ChildOf(v, u) && u in s.low ==> s.low[u] <= s.low[v]
    ensures var t := Close(s, v); Tables(adj, t) && LowsCoverEdges(adj, t) && LowsCoverChildren(t)
  {
    var t := Close(s, v);
    forall u, y | u in t.fin && Sees(adj, t, u, y)
      ensures t.low[u] <= t.disc[y]
    {
      assert Sees(adj, s, u, y);
    }
    forall c, u | t.ClosedChild(c, u) && u in t.low && c in t.low
      ensures t.low[u] <= t.low[c]
    {
      assert s.ChildOf(c, u);
      assert c != v ==> s.ClosedChild(c, u);
    }
  }

  lemma CloseKeepsForest(adj: Graph, s: Search, v: nat)
    requires Forest(adj, s) && Open(s, v) && (forall x :: x in adj[v] ==> x in s.disc)
    requires forall x :: Sees(adj, s, v, x) ==> s.low[v] <= s.disc[x]
    requires forall u :: s.ChildOf(v, u) && u in s.low ==> s.low[u] <= s.low[v]
    ensures Forest(adj, Close(s, v))
  {
    CloseKeepsLowsFound(adj, s, v);
    CloseKeepsCovers(adj, s, v);
    SameShapeKeepsShape(adj, s, Close(s, v));
    SameShapeKeepsNoCross(adj, s, Close(s, v));
  }

  // --------------------------------------------------------------- the stack

  ghost predicate OnStack(stack: seq<Frame>, v: nat) {
    exists k :: 0 <= k < |stack| && stack[k].node == v
  }

  ghost predicate GoodFrame(adj: Graph, s: Search, f: Frame) {
    && Open(s, f.node) && f.node in adj && f.pos <= |f.nbrs|
    && (forall x :: x in f.nbrs <==> x in adj[f.node])
  }

  /** The part of the iterator already consumed is visited and accounted for in `low`. */
  ghost predicate Consumed(s: Search, f: Frame) {
    forall j :: 0 <= j < f.pos && f.pos <= |f.nbrs| && f.node in s.low && f.node in s.parent ==>
      f.nbrs[j] in s.disc && (s.parent[f.node] != Some(f.nbrs[j]) ==> s.low[f.node] <= s.disc[f.nbrs[j]])
  }

  ghost function Under(stack: seq<Frame>, k: nat): Option<nat>
    requires k < |stack|
  {
    if k == 0 then None else Some(stack[k - 1].node)
  }

  ghost predicate LinkAt(s: Search, stack: seq<Frame>, k: nat) {
    k < |stack| ==> stack[k].node in s.parent && s.parent[stack[k].node] == Under(stack, k)
  }

  /** Each frame's parent is the frame below it. */
  ghost predicate LinkedFrames(s: Search, stack: seq<Frame>) {
    forall k :: LinkAt(s, stack, k)
  }

  ghost predicate DistinctFrames(stack: seq<Frame>) {
    forall i, j :: 0 <= i < j < |stack| ==> stack[i].node != stack[j].node
  }

  lemma FramesDistinct(adj: Graph, s: Search, stack: seq<Frame>)
    requires Tables(adj, s) && ParentEdges(adj, s) && Stacked(adj, s, stack)
    ensures DistinctFrames(stack)
    ensures forall k :: 0 <= k < |stack| ==> stack[k].node in s.disc && stack[k].node in s.low
  {
    forall k | 0 <= k < |stack| ensures stack[k].node in s.disc && stack[k].node in s.low {
      assert GoodFrame(adj, s, stack[k]);
    }
    forall i, j | 0 <= i < j < |stack| ensures stack[i].node != stack[j].node {
      StackClimbs(adj, s, stack, i, j);
    }
  }

  ghost predicate GoodFrames(adj: Graph, s: Search, stack: seq<Frame>) {
    forall k {:trigger GoodFrame(adj, s, stack[k])} {:trigger Consumed(s, stack[k])} ::
      0 <= k < |stack| ==> GoodFrame(adj, s, stack[k]) && Consumed(s, stack[k])
  }

  ghost predicate HoldsOpen(s: Search, stack: seq<Frame>) {
    forall v :: Open(s, v) ==> OnStack(stack, v)
  }

  ghost predicate Stacked(adj: Graph, s: Search, stack: seq<Frame>) {
    GoodFrames(adj, s, stack) && HoldsOpen(s, stack) && LinkedFrames(s, stack)
  }

  /** Links survive when parents stay and the stack keeps the nodes of a prefix. */
  lemma LinksStay(s: Search, t: Search, stack: seq<Frame>, stack': seq<Frame>)
    requires LinkedFrames(s, stack) && t.parent == s.parent && |stack'| <= |stack|
    requires forall k :: 0 <= k < |stack'| ==> stack'[k].node == stack[k].node
    ensures LinkedFrames(t, stack')
  {
    forall k ensures LinkAt(t, stack', k) {
      assert LinkAt(s, stack, k);
    }
  }

  ghost function Top(stack: seq<Frame>): Option<nat> {
    if stack == [] then None else Some(stack[|stack| - 1].node)
  }

  lemma {:induction false} StackClimbs(adj: Graph, s: Search, stack: seq<Frame>, i: nat, j: nat)
    requires Tables(adj, s) && ParentEdges(adj, s) && LinkedFrames(s, stack) && i <= j < |stack|
    requires forall k :: 0 <= k < |stack| ==> stack[k].node in s.disc
    ensures s.disc[stack[i].node] <= s.disc[stack[j].node] && (i < j ==> stack[i].node != stack[j].node)
  {
    if i < j {
      StackClimbs(adj, s, stack, i, j - 1);
      assert LinkAt(s, stack, j);
      assert s.ChildOf(stack[j].node, stack[j - 1].node);
    }
  }

  lemma StackIsChain(adj: Graph, s: Search, stack: seq<Frame>)
    requires Tables(adj, s) && ParentEdges(adj, s) && Stacked(adj, s, stack)
    ensures ChainTo(s, Top(stack))
  {
    forall k | 0 <= k < |stack| ensures Open(s, stack[k].node) {
      assert GoodFrame(adj, s, stack[k]);
    }
    forall x | Open(s, x)
      ensures stack != [] && s.disc[x] <= s.disc[stack[|stack| - 1].node]
      ensures forall q :: s.ChildOf(x, q) ==> Open(s, q)
    {
      OpenIsUnderTop(adj, s, stack, x);
    }
  }

  lemma OpenIsUnderTop(adj: Graph, s: Search, stack: seq<Frame>, x: nat)
    requires Tables(adj, s) && ParentEdges(adj, s) && LinkedFrames(s, stack) && HoldsOpen(s, stack) && Open(s, x)
    requires forall k :: 0 <= k < |stack| ==> Open(s, stack[k].node)
    ensures stack != [] && s.disc[x] <= s.disc[stack[|stack| - 1].node]
    ensures forall q :: s.ChildOf(x, q) ==> Open(s, q)
  {
    assert OnStack(stack, x);
    var k :| 0 <= k < |stack| && stack[k].node == x;
    StackClimbs(adj, s, stack, k, |stack| - 1);
    assert LinkAt(s, stack, k);
  }

  // ------------------------------------------------------------- bookkeeping

  ghost function Kids(s: Search, v: nat): set<nat> {
    set c | c in s.parent && s.parent[c] == Some(v)
  }

  function Count(children: map<nat, nat>, v: nat): nat {
    if v in children then children[v] else 0
  }

  ghost predicate Counted(s: Search, children: map<nat, nat>) {
    forall v :: Count(children, v) == |Kids(s, v)|
  }

  ghost predicate CutsMatch(s: Search, cuts: set<nat>) {
    forall v :: v in cuts <==> Flagged(s, v)
  }

  ghost predicate Running(adj: Graph, s: Search, stack: seq<Frame>, children: map<nat, nat>, cuts: set<nat>) {
    Forest(adj, s) && Stacked(adj, s, stack) && Counted(s, children) && CutsMatch(s, cuts)
  }

  /** Starting a tree (stack empty) or descending from the top of the stack. */
  lemma Descend(adj: Graph, s: Search, stack: seq<Frame>, children: map<nat, nat>, cuts: set<nat>, v: nat,
                nbrs: seq<nat>)
    requires Undirected(adj) && Running(adj, s, stack, children, cuts)
    requires v in adj && v !in s.disc && (forall x :: x in nbrs <==> x in adj[v])
    requires stack != [] ==> stack[|stack| - 1].node in adj && v in adj[stack[|stack| - 1].node]
    ensures var children' := if stack == [] then children
                             else var u := stack[|stack| - 1].node; children[u := Count(children, u) + 1];
            Running(adj, Discover(s, v, Top(stack)), stack + [Frame(v, nbrs, 0)], children', cuts)
  {
    StackIsChain(adj, s, stack);
    DiscoverKeepsForest(adj, s, v, Top(stack));
    DescendStacked(adj, s, stack, v, nbrs);
    DescendCounted(adj, s, stack, children, v);
    DescendCuts(adj, s, v, Top(stack), cuts);
  }

  lemma DescendStacked(adj: Graph, s: Search, stack: seq<Frame>, v: nat, nbrs: seq<nat>)
    requires Tables(adj, s) && Stacked(adj, s, stack)
    requires v in adj && v !in s.disc && (forall x :: x in nbrs <==> x in adj[v])
    ensures Stacked(adj, Discover(s, v, Top(stack)), stack + [Frame(v, nbrs, 0)])
  {
    var t := Discover(s, v, Top(stack));
    var stack' := stack + [Frame(v, nbrs, 0)];
    DescendFrames(adj, s, stack, v, nbrs);
    DescendHoldsOpen(s, stack, v, nbrs);
    assert v !in s.parent;
    forall k ensures LinkAt(t, stack', k) {
      assert LinkAt(s, stack, k);
    }
  }

  lemma DescendFrames(adj: Graph, s: Search, stack: seq<Frame>, v: nat, nbrs: seq<nat>)
    requires Tables(adj, s) && GoodFrames(adj, s, stack)
    requires v in adj && v !in s.disc && (forall x :: x in nbrs <==> x in adj[v])
    ensures GoodFrames(adj, Discover(s, v, Top(stack)), stack + [Frame(v, nbrs, 0)])
  {
    var t := Discover(s, v, Top(stack));
    var stack' := stack + [Frame(v, nbrs, 0)];
    forall k | 0 <= k < |stack'|
      ensures GoodFrame(adj, t, stack'[k]) && Consumed(t, stack'[k])
    {
      if k < |stack| {
        assert GoodFrame(adj, s, stack[k]) && Consumed(s, stack[k]);
      }
    }
  }

  lemma DescendHoldsOpen(s: Search, stack: seq<Frame>, v: nat, nbrs: seq<nat>)
    requires HoldsOpen(s, stack)
    ensures HoldsOpen(Discover(s, v, Top(stack)), stack + [Frame(v, nbrs, 0)])
  {
    var stack' := stack + [Frame(v, nbrs, 0)];
    forall x | Open(Discover(s, v, Top(stack)), x)
      ensures OnStack(stack', x)
    {
      if x == v {
        assert stack'[|stack|].node == x;
      } else {
        assert Open(s, x);
        var k :| 0 <= k < |stack| && stack[k].node == x;
        assert stack'[k].node == x;
      }
    }
  }

  lemma DescendCounted(adj: Graph, s: Search, stack: seq<Frame>, children: map<nat, nat>, v: nat)
    requires Tables(adj, s) && Counted(s, children) && v !in s.disc
    ensures var children' := if stack == [] then children
                             else var u := stack[|stack| - 1].node; children[u := Count(children, u) + 1];
            Counted(Discover(s, v, Top(stack)), children')
  {
    forall x: nat {
      KidsAfterDiscover(s, v, Top(stack), x);
    }
  }

  lemma KidsAfterDiscover(s: Search, v: nat, p: Option<nat>, x: nat)
    requires v !in s.parent
    ensures |Kids(Discover(s, v, p), x)| == |Kids(s, x)| + if p == Some(x) then 1 else 0
  {
    var t := Discover(s, v, p);
    assert Kids(t, x) == if p == Some(x) then Kids(s, x) + {v} else Kids(s, x);
  }

  lemma DescendCuts(adj: Graph, s: Search, v: nat, p: Option<nat>, cuts: set<nat>)
    requires Tables(adj, s) && ParentEdges(adj, s) && v !in s.disc && CutsMatch(s, cuts)
    ensures CutsMatch(Discover(s, v, p), cuts)
  {
    var t := Discover(s, v, p);
    forall c, x ensures t.ClosedChild(c, x) <==> s.ClosedChild(c, x) {}
    forall x ensures Flagged(t, x) <==> Flagged(s, x)
    {
      assert forall c :: s.ClosedChild(c, x) ==> c != v && t.low[c] == s.low[c];
      if x == v {
        assert forall c :: s.ClosedChild(c, v) ==> s.ChildOf(c, v);
      }
    }
  }

  function Advance(stack: seq<Frame>): seq<Frame>
    requires stack != []
  {
    var top := |stack| - 1;
    stack[top := stack[top].(pos := stack[top].pos + 1)]
  }

  /** Consuming a visited neighbour x: low is updated unless x is the parent. */
  ghost function NoteAt(s: Search, v: nat, x: nat): Search
    requires v in s.low && v in s.parent && x in s.disc
  {
    if s.parent[v] != Some(x) then Lower(s, v, s.disc[x]) else s
  }

  lemma Note(adj: Graph, s: Search, stack: seq<Frame>, children: map<nat, nat>, cuts: set<nat>, f: Frame, x: nat)
    requires Running(adj, s, stack, children, cuts)
    requires stack != [] && f == stack[|stack| - 1] && f.pos < |f.nbrs| && x == f.nbrs[f.pos]
    requires f.node in s.low && f.node in s.parent && x in s.disc
    ensures Running(adj, NoteAt(s, f.node, x), Advance(stack), children, cuts)
  {
    assert GoodFrame(adj, s, f);
    if s.parent[f.node] != Some(x) {
      NoteKeepsForest(adj, s, f, x);
      LowerKeepsMarks(adj, s, f.node, s.disc[x], children, cuts);
    }
    NoteStacked(adj, s, stack, f, x);
  }

  lemma NoteKeepsForest(adj: Graph, s: Search, f: Frame, x: nat)
    requires Forest(adj, s) && GoodFrame(adj, s, f) && x in f.nbrs && x in s.disc
    requires s.parent[f.node] != Some(x)
    ensures Forest(adj, Lower(s, f.node, s.disc[x]))
  {
    assert Sees(adj, s, f.node, x) && s.Above(f.node, f.node);
    LowerKeepsForest(adj, s, f.node, f.node, x);
  }

  lemma LowerKeepsMarks(adj: Graph, s: Search, v: nat, d: nat, children: map<nat, nat>, cuts: set<nat>)
    requires Tables(adj, s) && Open(s, v) && Counted(s, children) && CutsMatch(s, cuts)
    ensures Counted(Lower(s, v, d), children) && CutsMatch(Lower(s, v, d), cuts)
  {
    var t := Lower(s, v, d);
    forall x: nat ensures Kids(t, x) == Kids(s, x) {}
    forall c, x ensures t.ClosedChild(c, x) <==> s.ClosedChild(c, x) {}
    forall x ensures Flagged(t, x) <==> Flagged(s, x)
    {
      assert forall c :: s.ClosedChild(c, x) ==> c != v && t.low[c] == s.low[c];
    }
  }

  lemma NoteStacked(adj: Graph, s: Search, stack: seq<Frame>, f: Frame, x: nat)
    requires Tables(adj, s) && Stacked(adj, s, stack)
    requires stack != [] && f == stack[|stack| - 1] && f.pos < |f.nbrs| && x == f.nbrs[f.pos]
    requires f.node in s.disc && x in s.disc
    ensures Stacked(adj, NoteAt(s, f.node, x), Advance(stack))
  {
    LinksStay(s, NoteAt(s, f.node, x), stack, Advance(stack));
    NoteFrames(adj, s, stack, f, x);
    NoteHoldsOpen(s, NoteAt(s, f.node, x), stack);
  }

  lemma NoteFrames(adj: Graph, s: Search, stack: seq<Frame>, f: Frame, x: nat)
    requires Tables(adj, s) && GoodFrames(adj, s, stack)
    requires stack != [] && f == stack[|stack| - 1] && f.pos < |f.nbrs| && x == f.nbrs[f.pos]
    requires f.node in s.disc && x in s.disc
    ensures GoodFrames(adj, NoteAt(s, f.node, x), Advance(stack))
  {
    var t, stack' := NoteAt(s, f.node, x), Advance(stack);
    forall k | 0 <= k < |stack'|
      ensures GoodFrame(adj, t, stack'[k]) && Consumed(t, stack'[k])
    {
      assert GoodFrame(adj, s, stack[k]) && Consumed(s, stack[k]);
    }
  }

  lemma NoteHoldsOpen(s: Search, t: Search, stack: seq<Frame>)
    requires HoldsOpen(s, stack) && stack != [] && t.disc == s.disc && t.fin == s.fin
    ensures HoldsOpen(t, Advance(stack))
  {
    forall v | Open(t, v)
      ensures OnStack(Advance(stack), v)
    {
      assert Open(s, v);
      var k :| 0 <= k < |stack| && stack[k].node == v;
      assert Advance(stack)[k].node == v;
    }
  }

  /** Popping the finished top of the stack: its parent inherits the low-link and is tested. */
  ghost function Finish(s: Search, stack: seq<Frame>): Search
    requires stack != [] && forall k :: 0 <= k < |stack| ==> stack[k].node in s.low
  {
    Close(Inherit(s, stack), stack[|stack| - 1].node)
  }

  ghost function Inherit(s: Search, stack: seq<Frame>): Search
    requires stack != [] && forall k :: 0 <= k < |stack| ==> stack[k].node in s.low
  {
    if |stack| == 1 then s else Lower(s, stack[|stack| - 2].node, s.low[stack[|stack| - 1].node])
  }

  ghost predicate Exhausted(adj: Graph, s: Search, stack: seq<Frame>) {
    stack != [] && stack[|stack| - 1].pos == |stack[|stack| - 1].nbrs|
  }

  lemma FinishKeepsForest(adj: Graph, s: Search, stack: seq<Frame>)
    requires Forest(adj, s) && Stacked(adj, s, stack) && Exhausted(adj, s, stack) && DistinctFrames(stack)
    requires forall k :: 0 <= k < |stack| ==> stack[k].node in s.low
    ensures Forest(adj, Finish(s, stack))
  {
    var f := stack[|stack| - 1];
    assert GoodFrame(adj, s, f) && Consumed(s, f);
    assert LinkAt(s, stack, |stack| - 1);
    if |stack| > 1 {
      assert GoodFrame(adj, s, stack[|stack| - 2]);
      InheritKeepsForest(adj, s, stack[|stack| - 2].node, f);
    } else {
      CloseInherited(adj, s, s, f);
    }
  }

  lemma InheritKeepsForest(adj: Graph, s: Search, above: nat, f: Frame)
    requires Forest(adj, s) && GoodFrame(adj, s, f) && Consumed(s, f) && f.pos == |f.nbrs|
    requires Open(s, above) && above != f.node && s.parent[f.node] == Some(above)
    ensures Forest(adj, Close(Lower(s, above, s.low[f.node]), f.node))
  {
    LowerByChild(adj, s, above, f.node);
    CloseInherited(adj, s, Lower(s, above, s.low[f.node]), f);
  }

  lemma CloseInherited(adj: Graph, s: Search, u: Search, f: Frame)
    requires Tables(adj, s) && GoodFrame(adj, s, f) && Consumed(s, f) && f.pos == |f.nbrs|
    requires Forest(adj, u)
    requires u.disc == s.disc && u.parent == s.parent && u.fin == s.fin && u.low[f.node] == s.low[f.node]
    requires u.parent[f.node].Some? ==>
               u.parent[f.node].value in u.low && u.low[u.parent[f.node].value] <= u.low[f.node]
    ensures Forest(adj, Close(u, f.node))
  {
    FinishedNodeCovered(adj, s, f, u);
    CloseKeepsForest(adj, u, f.node);
  }

  lemma FinishedNodeCovered(adj: Graph, s: Search, f: Frame, u: Search)
    requires Tables(adj, s) && Tables(adj, u) && GoodFrame(adj, s, f) && Consumed(s, f) && f.pos == |f.nbrs|
    requires u.disc == s.disc && u.parent == s.parent && u.low[f.node] == s.low[f.node]
    ensures forall x :: x in adj[f.node] ==> x in u.disc
    ensures forall x :: Sees(adj, u, f.node, x) ==> u.low[f.node] <= u.disc[x]
  {
    forall x | x in adj[f.node]
      ensures x in u.disc && (s.parent[f.node] != Some(x) ==> u.low[f.node] <= u.disc[x])
    {
      assert x in f.nbrs;
      var j :| 0 <= j < |f.nbrs| && f.nbrs[j] == x;
    }
  }

  lemma FinishStacked(adj: Graph, s: Search, stack: seq<Frame>)
    requires Stacked(adj, s, stack) && stack != [] && DistinctFrames(stack)
    requires forall k :: 0 <= k < |stack| ==> stack[k].node in s.low
    ensures Stacked(adj, Finish(s, stack), stack[..|stack| - 1])
  {
    var t := Finish(s, stack);
    var rest := stack[..|stack| - 1];
    LinksStay(s, t, stack, rest);
    forall k | 0 <= k < |rest|
      ensures GoodFrame(adj, t, rest[k]) && Consumed(t, rest[k])
    {
      FrameAfterFinish(adj, s, stack, k);
    }
    FinishHoldsOpen(s, stack);
  }

  lemma FinishHoldsOpen(s: Search, stack: seq<Frame>)
    requires HoldsOpen(s, stack) && stack != []
    requires forall k :: 0 <= k < |stack| ==> stack[k].node in s.low
    ensures HoldsOpen(Finish(s, stack), stack[..|stack| - 1])
  {
    var rest := stack[..|stack| - 1];
    forall v | Open(Finish(s, stack), v)
      ensures OnStack(rest, v)
    {
      assert Open(s, v);
      var k :| 0 <= k < |stack| && stack[k].node == v;
      assert rest[k].node == v;
    }
  }

  lemma FrameAfterFinish(adj: Graph, s: Search, stack: seq<Frame>, k: nat)
    requires k < |stack| - 1 && stack[k].node != stack[|stack| - 1].node
    requires GoodFrame(adj, s, stack[k]) && Consumed(s, stack[k])
    requires forall k :: 0 <= k < |stack| ==> stack[k].node in s.low
    ensures GoodFrame(adj, Finish(s, stack), stack[k]) && Consumed(Finish(s, stack), stack[k])
  {
    var t, f := Finish(s, stack), stack[k];
    assert t.disc == s.disc && t.parent == s.parent && t.low[f.node] <= s.low[f.node];
  }

  /** Once the top is popped, every child of the vertex below it has been popped. */
  lemma AllKidsClosed(s: Search, stack: seq<Frame>, c: nat)
    requires HoldsOpen(s, stack) && LinkedFrames(s, stack) && DistinctFrames(stack) && |stack| > 1
    requires s.ChildOf(c, stack[|stack| - 2].node) && c in s.disc
    ensures c in s.fin || c == stack[|stack| - 1].node
  {
    if c !in s.fin {
      assert Open(s, c);
      var k :| 0 <= k < |stack| && stack[k].node == c;
      assert LinkAt(s, stack, k);
      assert k > 0 && stack[k - 1].node == stack[|stack| - 2].node;
    }
  }

  /** The test of `_mark_cut` on the vertex below the popped one. */
  method MarkCut(node: nat, nxt: nat, children: nat, parent: map<nat, Option<nat>>, disc: map<nat, nat>,
                 low: map<nat, nat>, cuts: set<nat>)
    returns (r: set<nat>)
    requires node in parent && node in disc && nxt in low
    ensures r == if (if parent[node].None? then children > 1 else low[nxt] >= disc[node])
                 then cuts + {node} else cuts
  {
    r := cuts;
    if parent[node].None? && children > 1 {
      r := r + {node};
    }
    if parent[node].Some? && low[nxt] >= disc[node] {
      r := r + {node};
    }
  }

  lemma TwoOrMore(kids: set<nat>)
    ensures |kids| > 1 <==> exists c, d :: c in kids && d in kids && c != d
  {
    if |kids| > 1 {
      var c :| c in kids;
      assert |kids - {c}| > 0;
      var d :| d in kids - {c};
    } else if c, d :| c in kids && d in kids && c != d {
      assert {c, d} <= kids;
      SubsetSize({c, d}, kids);
    }
  }

  lemma {:induction false} SubsetSize(a: set<nat>, b: set<nat>)
    requires a <= b
    ensures |a| <= |b|
  {
    if a != {} {
      var x :| x in a;
      SubsetSize(a - {x}, b - {x});
    }
  }

  lemma FinishMarks(adj: Graph, s: Search, stack: seq<Frame>, children: map<nat, nat>, cuts: set<nat>, cuts': set<nat>)
    requires Tables(adj, s) && ParentEdges(adj, s) && Stacked(adj, s, stack) && DistinctFrames(stack)
    requires Counted(s, children) && CutsMatch(s, cuts)
    requires |stack| > 1 && forall k :: 0 <= k < |stack| ==> stack[k].node in s.low
    requires var node, above := stack[|stack| - 1].node, stack[|stack| - 2].node;
             above in s.parent && above in s.disc
             && cuts' == if (if s.parent[above].None? then Count(children, above) > 1 else s.low[node] >= s.disc[above])
                         then cuts + {above} else cuts
    ensures CutsMatch(Finish(s, stack), cuts')
  {
    var above := stack[|stack| - 2].node;
    FlagAbove(adj, s, stack, children);
    forall x | x != above ensures Flagged(Finish(s, stack), x) <==> Flagged(s, x)
    {
      FlagElsewhere(adj, s, stack, x);
    }
  }

  lemma FlagElsewhere(adj: Graph, s: Search, stack: seq<Frame>, x: nat)
    requires Tables(adj, s) && Stacked(adj, s, stack) && |stack| > 1
    requires forall k :: 0 <= k < |stack| ==> stack[k].node in s.low
    requires x != stack[|stack| - 2].node
    ensures Flagged(Finish(s, stack), x) <==> Flagged(s, x)
  {
    var t := Finish(s, stack);
    assert GoodFrame(adj, s, stack[|stack| - 2]);
    assert LinkAt(s, stack, |stack| - 1);
    forall c ensures t.ClosedChild(c, x) <==> s.ClosedChild(c, x) {}
    forall c | s.ClosedChild(c, x) ensures c in s.low && t.low[c] == s.low[c] {}
  }

  lemma FlagAbove(adj: Graph, s: Search, stack: seq<Frame>, children: map<nat, nat>)
    requires Tables(adj, s) && ParentEdges(adj, s) && Stacked(adj, s, stack) && DistinctFrames(stack)
    requires Counted(s, children)
    requires |stack| > 1 && forall k :: 0 <= k < |stack| ==> stack[k].node in s.low
    requires stack[|stack| - 2].node in s.parent && stack[|stack| - 2].node in s.disc
    ensures var node, above := stack[|stack| - 1].node, stack[|stack| - 2].node;
            Flagged(Finish(s, stack), above) <==>
              (Flagged(s, above)
               || if s.parent[above].None? then Count(children, above) > 1 else s.low[node] >= s.disc[above])
  {
    var node, above := stack[|stack| - 1].node, stack[|stack| - 2].node;
    assert GoodFrame(adj, s, stack[|stack| - 2]) && GoodFrame(adj, s, stack[|stack| - 1]);
    assert LinkAt(s, stack, |stack| - 1);
    assert s.ChildOf(node, above);
    assert Count(children, above) == |Kids(s, above)|;
    forall c | c in Kids(s, above) ensures c in s.fin || c == node
    {
      AllKidsClosed(s, stack, c);
    }
    FlagTested(adj, s, stack);
  }

  lemma FlagTested(adj: Graph, s: Search, stack: seq<Frame>)
    requires Tables(adj, s)
    requires |stack| > 1 && forall k :: 0 <= k < |stack| ==> stack[k].node in s.low
    requires var node, above := stack[|stack| - 1].node, stack[|stack| - 2].node;
             Open(s, node) && Open(s, above) && node != above && s.ChildOf(node, above)
             && forall c :: c in Kids(s, above) ==> c in s.fin || c == node
    ensures var node, above := stack[|stack| - 1].node, stack[|stack| - 2].node;
            Flagged(Finish(s, stack), above) <==>
              (Flagged(s, above)
               || if s.parent[above].None? then |Kids(s, above)| > 1 else s.low[node] >= s.disc[above])
  {
    var node, above := stack[|stack| - 1].node, stack[|stack| - 2].node;
    if s.parent[above].None? {
      FlagRoot(s, Finish(s, stack), above, node);
    } else {
      FlagInner(s, Finish(s, stack), above, node);
    }
  }

  lemma FlagRoot(s: Search, t: Search, above: nat, node: nat)
    requires above in s.parent && above in s.disc && s.parent[above].None? && s.ChildOf(node, above)
    requires t.disc == s.disc && t.parent == s.parent && t.fin.Keys == s.fin.Keys + {node}
    requires forall c :: c in Kids(s, above) ==> c in s.fin || c == node
    ensures Flagged(t, above) <==> |Kids(s, above)| > 1
    ensures Flagged(s, above) ==> |Kids(s, above)| > 1
  {
    forall c: nat ensures t.ClosedChild(c, above) <==> c in Kids(s, above) {}
    forall c: nat ensures s.ClosedChild(c, above) ==> c in Kids(s, above) {}
    TwoOrMore(Kids(s, above));
  }

  lemma FlagInner(s: Search, t: Search, above: nat, node: nat)
    requires above in s.parent && above in s.disc && s.parent[above].Some? && s.ChildOf(node, above)
    requires t.disc == s.disc && t.parent == s.parent && t.fin.Keys == s.fin.Keys + {node}
    requires node in s.low && node in t.low && t.low[node] == s.low[node]
    requires forall c :: c in s.fin ==> c in s.low && c in t.low && t.low[c] == s.low[c]
    ensures Flagged(t, above) <==> Flagged(s, above) || s.low[node] >= s.disc[above]
  {
    forall c ensures t.ClosedChild(c, above) <==> s.ClosedChild(c, above) || c == node {}
  }

  // ------------------------------------------------------------- the algorithm

  /** One finished stack entry is popped; what the loop keeps about it. */
  lemma FinishKeeps(adj: Graph, s: Search, stack: seq<Frame>, children: map<nat, nat>, cuts: set<nat>, cuts': set<nat>)
    requires Running(adj, s, stack, children, cuts) && Exhausted(adj, s, stack)
    requires forall k :: 0 <= k < |stack| ==> stack[k].node in s.low && stack[k].node in s.disc
    requires |stack| == 1 ==> cuts' == cuts
    requires |stack| > 1 ==>
      var node, above := stack[|stack| - 1].node, stack[|stack| - 2].node;
      above in s.parent && above in s.disc
      && cuts' == if (if s.parent[above].None? then Count(children, above) > 1 else s.low[node] >= s.disc[above])
                  then cuts + {above} else cuts
    ensures Running(adj, Finish(s, stack), stack[..|stack| - 1], children, cuts')
  {
    FramesDistinct(adj, s, stack);
    FinishKeepsForest(adj, s, stack);
    FinishStacked(adj, s, stack);
    SameParentsCounted(s, Finish(s, stack), children);
    if |stack| > 1 {
      FinishMarks(adj, s, stack, children, cuts, cuts');
    } else {
      FinishRootMarks(s, stack, cuts);
    }
  }

  lemma SameParentsCounted(s: Search, t: Search, children: map<nat, nat>)
    requires Counted(s, children) && t.parent == s.parent
    ensures Counted(t, children)
  {
    forall x: nat ensures Kids(t, x) == Kids(s, x) {}
  }

  lemma FinishRootMarks(s: Search, stack: seq<Frame>, cuts: set<nat>)
    requires |stack| == 1 && stack[0].node in s.low && LinkedFrames(s, stack) && CutsMatch(s, cuts)
    ensures CutsMatch(Finish(s, stack), cuts)
  {
    var t := Finish(s, stack);
    assert LinkAt(s, stack, 0);
    forall c, x ensures t.ClosedChild(c, x) <==> s.ClosedChild(c, x) {}
    forall x ensures Flagged(t, x) <==> Flagged(s, x) {}
  }

  lemma TopReady(adj: Graph, s: Search, stack: seq<Frame>, children: map<nat, nat>, cuts: set<nat>, k: nat)
    requires Undirected(adj) && Running(adj, s, stack, children, cuts) && k < |stack|
    ensures var v := stack[k].node;
            v in adj && v in s.disc && v in s.low && v in s.parent
            && stack[k].pos <= |stack[k].nbrs|
            && forall x :: x in stack[k].nbrs ==> x in adj[v] && x in adj
  {
    assert GoodFrame(adj, s, stack[k]);
  }

  lemma FinishFields(s: Search, stack: seq<Frame>)
    requires stack != [] && forall k :: 0 <= k < |stack| ==> stack[k].node in s.low
    ensures var t := Finish(s, stack);
            t.disc == s.disc && t.parent == s.parent && t.timer == s.timer
            && t.low == if |stack| == 1 then s.low
                        else var v, c := stack[|stack| - 2].node, stack[|stack| - 1].node;
                             s.low[v := if s.low[c] < s.low[v] then s.low[c] else s.low[v]]
  {
  }

  lemma DiscoverSmaller(adj: Graph, disc: map<nat, nat>, v: nat, now: nat)
    requires v in adj && v !in disc
    ensures disc.Keys < disc[v := now].Keys && adj.Keys - disc[v := now].Keys < adj.Keys - disc.Keys
  {
    assert v in disc[v := now].Keys && v in adj.Keys - disc.Keys;
  }

  /** The `for nxt in neighbours` loop on the top of the stack: it stops at the end of the
      iterator, or as soon as it has pushed an unvisited neighbour. */
  method ScanNeighbours(adj: Graph, disc0: map<nat, nat>, low0: map<nat, nat>, parent0: map<nat, Option<nat>>,
                        children0: map<nat, nat>, timer0: nat, stack0: seq<Frame>,
                        ghost fin: map<nat, nat>, ghost cuts: set<nat>)
    returns (disc: map<nat, nat>, low: map<nat, nat>, parent: map<nat, Option<nat>>,
             children: map<nat, nat>, timer: nat, stack: seq<Frame>, descended: bool)
    requires Undirected(adj) && stack0 != []
    requires Running(adj, Search(disc0, low0, parent0, fin, timer0), stack0, children0, cuts)
    ensures Running(adj, Search(disc, low, parent, fin, timer), stack, children, cuts)
    ensures disc0.Keys <= disc.Keys
    ensures descended ==> stack != [] && adj.Keys - disc.Keys < adj.Keys - disc0.Keys
    ensures !descended ==> |stack| == |stack0| && disc == disc0
    ensures !descended ==> Exhausted(adj, Search(disc, low, parent, fin, timer), stack)
  {
    hide Running, IsCutVertex;
    disc, low, parent, children, timer, stack := disc0, low0, parent0, children0, timer0, stack0;
    var top := |stack| - 1;
    var node := stack[top].node;
    while stack[top].pos < |stack[top].nbrs|
      invariant Running(adj, Search(disc, low, parent, fin, timer), stack, children, cuts)
      invariant |stack| == |stack0| && stack[top].node == node && disc == disc0
      decreases |stack[top].nbrs| - stack[top].pos
    {
      ghost var s := Search(disc, low, parent, fin, timer);
      TopReady(adj, s, stack, children, cuts, top);
      var nxt := stack[top].nbrs[stack[top].pos];
      if nxt !in disc {
        var more := SortedSet(adj[nxt]);
        Descend(adj, s, stack, children, cuts, nxt, more);
        DiscoverSmaller(adj, disc, nxt, timer + 1);
        parent := parent[nxt := Some(node)];
        children := children[node := Count(children, node) + 1];
        timer := timer + 1;
        disc, low := disc[nxt := timer], low[nxt := timer];
        stack := stack + [Frame(nxt, more, 0)];
        descended := true;
        return;
      }
      Note(adj, s, stack, children, cuts, stack[top], nxt);
      if parent[node] != Some(nxt) {
        low := low[node := if disc[nxt] < low[node] then disc[nxt] else low[node]];
      }
      stack := Advance(stack);
    }
    TopReady(adj, Search(disc, low, parent, fin, timer), stack, children, cuts, top);
    descended := false;
  }

  /** Popping the top of the stack, passing its low-link down and testing the frame below. */
  method PopFrame(adj: Graph, disc: map<nat, nat>, low0: map<nat, nat>, parent: map<nat, Option<nat>>,
                  children: map<nat, nat>, timer: nat, stack0: seq<Frame>, cuts0: set<nat>,
                  ghost fin0: map<nat, nat>)
    returns (low: map<nat, nat>, stack: seq<Frame>, cuts: set<nat>, ghost fin: map<nat, nat>)
    requires Undirected(adj)
    requires Running(adj, Search(disc, low0, parent, fin0, timer), stack0, children, cuts0)
    requires Exhausted(adj, Search(disc, low0, parent, fin0, timer), stack0)
    ensures |stack| == |stack0| - 1
    ensures Running(adj, Search(disc, low, parent, fin, timer), stack, children, cuts)
  {
    hide Running, IsCutVertex;
    ghost var s := Search(disc, low0, parent, fin0, timer);
    forall k | 0 <= k < |stack0|
      ensures stack0[k].node in low0 && stack0[k].node in parent && stack0[k].node in disc
    {
      TopReady(adj, s, stack0, children, cuts0, k);
    }
    FinishFields(s, stack0);
    var node := stack0[|stack0| - 1].node;
    stack, low, cuts := stack0[..|stack0| - 1], low0, cuts0;
    if stack != [] {
      var above := stack[|stack| - 1].node;
      low := low[above := if low[node] < low[above] then low[node] else low[above]];
      cuts := MarkCut(above, node, Count(children, above), parent, disc, low, cuts);
    }
    FinishKeeps(adj, s, stack0, children, cuts0, cuts);
    fin := Finish(s, stack0).fin;
  }

  method ArticulationPoints(adj: Graph) returns (cuts: set<nat>)
    requires Undirected(adj)
    ensures forall v :: v in cuts <==> v in adj && IsCutVertex(adj, v)
  {
    hide Running, IsCutVertex;
    var disc: map<nat, nat>, low: map<nat, nat>, children: map<nat, nat> := map[], map[], map[];
    var parent: map<nat, Option<nat>> := map[];
    var timer := 0;
    cuts := {};
    ghost var fin: map<nat, nat> := map[];
    var starts := SortedSet(adj.Keys);
    StartsRunning(adj);
    for i := 0 to |starts|
      invariant Running(adj, Search(disc, low, parent, fin, timer), [], children, cuts)
      invariant forall j :: 0 <= j < i ==> starts[j] in disc.Keys
    {
      var start := starts[i];
      if start in disc {
        continue;
      }
      var nbrs := SortedSet(adj[start]);
      Descend(adj, Search(disc, low, parent, fin, timer), [], children, cuts, start, nbrs);
      parent := parent[start := None];
      timer := timer + 1;
      disc, low := disc[start := timer], low[start := timer];
      var stack := [Frame(start, nbrs, 0)];
      assert [] + stack == stack;
      ghost var seen := disc.Keys;
      while stack != []
        invariant Running(adj, Search(disc, low, parent, fin, timer), stack, children, cuts)
        invariant seen <= disc.Keys
        decreases adj.Keys - disc.Keys, |stack|
      {
        var descended;
        disc, low, parent, children, timer, stack, descended :=
          ScanNeighbours(adj, disc, low, parent, children, timer, stack, fin, cuts);
        if descended {
          continue;
        }
        low, stack, cuts, fin := PopFrame(adj, disc, low, parent, children, timer, stack, cuts, fin);
      }
    }
    CutsAtEnd(adj, Search(disc, low, parent, fin, timer), children, cuts, starts);
  }

  lemma StartsRunning(adj: Graph)
    ensures Running(adj, Search(map[], map[], map[], map[], 0), [], map[], {})
  {
  }

  /** With every start vertex visited and the stack empty, the cuts are the cut vertices. */
  lemma CutsAtEnd(adj: Graph, s: Search, children: map<nat, nat>, cuts: set<nat>, starts: seq<nat>)
    requires Undirected(adj) && Running(adj, s, [], children, cuts)
    requires forall v :: v in adj ==> v in starts
    requires forall j :: 0 <= j < |starts| ==> starts[j] in s.disc
    ensures forall v :: v in cuts <==> v in adj && IsCutVertex(adj, v)
  {
    CompleteAtEnd(adj, s, starts);
    forall v ensures v in cuts <==> v in adj && IsCutVertex(adj, v)
    {
      if v in adj { FlaggedIffCut(adj, s, v); }
    }
  }

  lemma CompleteAtEnd(adj: Graph, s: Search, starts: seq<nat>)
    requires Forest(adj, s) && HoldsOpen(s, [])
    requires forall v :: v in adj ==> v in starts
    requires forall j :: 0 <= j < |starts| ==> starts[j] in s.disc
    ensures Complete(adj, s)
  {
    forall v | v in adj ensures v in s.fin
    {
      assert v in starts;
      assert v in s.disc;
      assert Open(s, v) ==> OnStack([], v);
    }
  }
}
