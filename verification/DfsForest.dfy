/** What a depth-first search knows about an undirected graph, and why the low-link
    test over it finds exactly the cut vertices (analytics.py). */
module DfsForest {
  import opened Options
  import opened Paths

  type Graph = map<nat, set<nat>>

  /** The adjacency map `_adjacency` builds: both directions, no self loops. */
  ghost predicate Undirected(adj: Graph) {
    forall x, y :: x in adj && y in adj[x] ==> y != x && y in adj && x in adj[y]
  }

  ghost function EdgesOf(adj: Graph): Edges {
    set x, y | x in adj && y in adj[x] :: (x, y)
  }

  /** The edges that are left once v is removed. */
  ghost function EdgesWithout(adj: Graph, v: nat): Edges {
    set x, y | x in adj && y in adj[x] && x != v && y != v :: (x, y)
  }

  /** The textbook definition: two other vertices are connected, but only through v. */
  ghost predicate Separates(adj: Graph, v: nat, a: nat, b: nat) {
    a != v && b != v && Linked(EdgesOf(adj), a, b) && !Linked(EdgesWithout(adj, v), a, b)
  }

  ghost predicate IsCutVertex(adj: Graph, v: nat) {
    exists a: nat, b: nat :: Separates(adj, v, a, b)
  }

  /** The search tables. `fin` is the clock at which a vertex was popped; a vertex that
      is still on the stack has no entry and its subtree reaches up to the present. */
  datatype Search = Search(
    disc: map<nat, nat>,
    low: map<nat, nat>,
    parent: map<nat, Option<nat>>,
    fin: map<nat, nat>,
    timer: nat)
  {
    ghost function Fin(v: nat): nat {
      if v in fin then fin[v] else timer
    }

    /** x is v or an ancestor of v in the search forest */
    ghost predicate Above(x: nat, v: nat)
      requires x in disc && v in disc
    {
      disc[x] <= disc[v] <= Fin(x)
    }

    ghost predicate ChildOf(c: nat, v: nat) {
      c in parent && parent[c] == Some(v)
    }

    ghost predicate ClosedChild(c: nat, v: nat) {
      c in fin && ChildOf(c, v)
    }
  }

  ghost predicate Tables(adj: Graph, s: Search) {
    && (forall v :: v in s.disc <==> v in s.low)
    && (forall v :: v in s.disc <==> v in s.parent)
    && (forall v :: v in s.fin ==> v in s.disc)
    && (forall v :: v in s.disc ==> v in adj)
  }

  ghost predicate Clocks(s: Search) {
    forall v :: v in s.disc ==> 1 <= s.disc[v] <= s.Fin(v) <= s.timer
  }

  ghost predicate DistinctClocks(s: Search) {
    forall v, w :: v in s.disc && w in s.disc && s.disc[v] == s.disc[w] ==> v == w
  }

  /** Parent edges are graph edges and subtrees nest. */
  ghost predicate ParentEdges(adj: Graph, s: Search)
    requires Tables(adj, s)
  {
    forall v, p :: s.ChildOf(v, p) ==>
      p in s.disc && v in adj[p] && s.disc[p] < s.disc[v] && s.Fin(v) <= s.Fin(p)
  }

  /** Nothing comes between a vertex v and its parent. */
  ghost predicate NearestAt(s: Search, x: nat, v: nat) {
    x in s.disc && v in s.disc && v in s.parent && s.disc[x] < s.disc[v] <= s.Fin(x) ==>
      s.parent[v].Some? && s.parent[v].value in s.disc && s.disc[x] <= s.disc[s.parent[v].value]
  }

  ghost predicate ParentNearest(s: Search) {
    forall x, v :: NearestAt(s, x, v)
  }

  /** No edge crosses between two subtrees; a popped vertex has all its neighbours visited. */
  ghost predicate NoCrossEdges(adj: Graph, s: Search)
    requires Tables(adj, s)
  {
    && (forall w, x :: w in s.disc && x in s.disc && x in adj[w] && s.disc[w] < s.disc[x] ==>
          s.disc[x] <= s.Fin(w))
    && (forall w, x :: w in s.fin && x in adj[w] ==> x in s.disc)
  }

  /** x is what w sees over a non-tree edge (or a tree edge downwards). */
  ghost predicate Sees(adj: Graph, s: Search, w: nat, x: nat)
    requires Tables(adj, s)
  {
    w in s.disc && x in s.disc && x in adj[w] && s.parent[w] != Some(x)
  }

  ghost predicate LowSource(adj: Graph, s: Search, v: nat, w: nat, x: nat)
    requires Tables(adj, s) && v in s.disc
  {
    Sees(adj, s, w, x) && s.Above(v, w) && s.low[v] == s.disc[x]
  }

  ghost predicate LowFound(adj: Graph, s: Search, v: nat)
    requires Tables(adj, s) && v in s.disc
  {
    s.low[v] == s.disc[v] || exists w, x :: LowSource(adj, s, v, w, x)
  }

  ghost predicate LowsFound(adj: Graph, s: Search)
    requires Tables(adj, s)
  {
    && (forall v :: v in s.disc ==> s.low[v] <= s.disc[v])
    && (forall v {:trigger LowFound(adj, s, v)} :: v in s.disc ==> LowFound(adj, s, v))
  }

  ghost predicate LowsCoverEdges(adj: Graph, s: Search)
    requires Tables(adj, s)
  {
    forall v, x :: v in s.fin && Sees(adj, s, v, x) ==> s.low[v] <= s.disc[x]
  }

  ghost predicate LowsCoverChildren(s: Search) {
    forall c, v :: s.ClosedChild(c, v) && v in s.low && c in s.low ==> s.low[v] <= s.low[c]
  }

  ghost predicate Forest(adj: Graph, s: Search) {
    && Tables(adj, s)
    && Clocks(s)
    && DistinctClocks(s)
    && ParentEdges(adj, s)
    && ParentNearest(s)
    && NoCrossEdges(adj, s)
    && LowsFound(adj, s)
    && LowsCoverEdges(adj, s)
    && LowsCoverChildren(s)
  }

  /** The whole graph has been searched and every vertex popped. */
  ghost predicate Complete(adj: Graph, s: Search) {
    Forest(adj, s) && forall v :: v in adj ==> v in s.fin
  }

  /** The test of `_mark_cut`, over the children popped so far. */
  ghost predicate Flagged(s: Search, v: nat) {
    && v in s.parent && v in s.disc
    && if s.parent[v].None?
       then exists c, d :: c != d && s.ClosedChild(c, v) && s.ClosedChild(d, v)
       else exists c :: s.ClosedChild(c, v) && c in s.low && s.low[c] >= s.disc[v]
  }

  // ---------------------------------------------------------------- soundness

  /** Every proper ancestor of c is the parent of c or above it. */
  lemma AncestorsOfChild(adj: Graph, s: Search, c: nat, v: nat, x: nat)
    requires Forest(adj, s) && s.ChildOf(c, v) && x in s.disc
    requires s.disc[x] < s.disc[c] <= s.Fin(x)
    ensures v in s.disc && s.disc[x] <= s.disc[v] && s.disc[v] <= s.Fin(x)
  {
    assert NearestAt(s, x, c);
  }

  /** Whatever is above w is above or below every other ancestor of w. */
  lemma {:induction false} AncestorsNest(adj: Graph, s: Search, x: nat, c: nat, w: nat)
    requires Forest(adj, s) && x in s.disc && c in s.disc && w in s.disc
    requires s.Above(x, w) && s.Above(c, w) && s.disc[x] <= s.disc[c]
    ensures s.Above(x, c)
  {
  }

  lemma {:induction false} LowCoversSubtree(adj: Graph, s: Search, v: nat, w: nat)
    requires Complete(adj, s) && v in s.disc && w in s.disc && s.Above(v, w)
    ensures s.low[v] <= s.low[w] && s.Fin(w) <= s.Fin(v)
    decreases s.disc[w]
  {
    if w != v {
      assert NearestAt(s, v, w);
      var p := s.parent[w].value;
      assert s.ChildOf(w, p);
      assert s.ClosedChild(w, p);
      LowCoversSubtree(adj, s, v, p);
    }
  }

  /** An edge that leaves the subtree of c leads to a proper ancestor of c. */
  lemma LeavingEdgeGoesUp(adj: Graph, s: Search, c: nat, w: nat, x: nat)
    requires Undirected(adj) && Complete(adj, s) && c in s.disc
    requires w in s.disc && s.Above(c, w) && x in adj[w] && !(x in s.disc && s.Above(c, x))
    ensures x in s.disc && s.disc[x] < s.disc[c] <= s.Fin(x)
  {
    LowCoversSubtree(adj, s, c, w);
    assert w in adj[x];
    if s.disc[x] < s.disc[c] {
      AncestorsNest(adj, s, x, c, w);
    }
  }

  /** No edge but those into the parent v leaves the subtree of c if its low-link stays at v. */
  lemma SubtreeIsClosed(adj: Graph, s: Search, v: nat, c: nat, w: nat, x: nat)
    requires Undirected(adj) && Complete(adj, s) && s.ChildOf(c, v)
    requires s.parent[v].None? || s.low[c] >= s.disc[v]
    requires w in s.disc && s.Above(c, w) && x in adj[w] && x != v
    ensures x in s.disc && s.Above(c, x)
  {
    if !(x in s.disc && s.Above(c, x)) {
      LeavingEdgeGoesUp(adj, s, c, w, x);
      AncestorsOfChild(adj, s, c, v, x);
      assert NearestAt(s, x, v);
      LowCoversSubtree(adj, s, c, w);
      UpEdgeIsSeen(adj, s, c, v, w, x);
      assert false;
    }
  }

  /** w's edge to a proper ancestor x of c is a back edge, unless w is c and x its parent. */
  lemma UpEdgeIsSeen(adj: Graph, s: Search, c: nat, v: nat, w: nat, x: nat)
    requires Complete(adj, s) && s.ChildOf(c, v) && x in s.disc && s.disc[x] < s.disc[c]
    requires w in s.disc && s.Above(c, w) && x in adj[w] && x != v
    ensures s.low[w] <= s.disc[x]
  {
    assert NearestAt(s, c, w);
    if s.parent[w] != Some(x) {
      assert Sees(adj, s, w, x);
    }
  }

  lemma JoinedWithout(adj: Graph, v: nat, x: nat, y: nat)
    requires Undirected(adj) && Joined(EdgesWithout(adj, v), x, y)
    ensures x in adj && y in adj[x] && x != v && y != v
  {
  }

  lemma EdgeIsLink(adj: Graph, x: nat, y: nat)
    requires x in adj && y in adj[x]
    ensures Linked(EdgesOf(adj), x, y)
  {
    assert (x, y) in EdgesOf(adj);
    LinkedEdge(EdgesOf(adj), x, y);
  }

  /** Removing v cuts such a subtree off from everything outside it. */
  lemma SubtreeSeparated(adj: Graph, s: Search, v: nat, c: nat, b: nat)
    requires Undirected(adj) && Complete(adj, s) && s.ChildOf(c, v)
    requires s.parent[v].None? || s.low[c] >= s.disc[v]
    requires b in s.disc && !s.Above(c, b)
    ensures !Linked(EdgesWithout(adj, v), c, b)
  {
    var inside := iset w: nat | w in s.disc && s.Above(c, w);
    forall x: nat, y: nat | Joined(EdgesWithout(adj, v), x, y) && x in inside
      ensures y in inside
    {
      JoinedWithout(adj, v, x, y);
      SubtreeIsClosed(adj, s, v, c, x, y);
    }
    if Linked(EdgesWithout(adj, v), c, b) {
      LinkedStaysInside(EdgesWithout(adj, v), inside, c, b);
    }
  }

  lemma FlaggedIsCut(adj: Graph, s: Search, v: nat)
    requires Undirected(adj) && Complete(adj, s) && Flagged(s, v)
    ensures IsCutVertex(adj, v)
  {
    if s.parent[v].None? {
      var c, d :| c != d && s.ClosedChild(c, v) && s.ClosedChild(d, v);
      SiblingsApart(adj, s, v, c, d);
      EdgeIsLink(adj, v, c); EdgeIsLink(adj, v, d);
      LinkedSym(EdgesOf(adj), v, c);
      LinkedTrans(EdgesOf(adj), c, v, d);
      SubtreeSeparated(adj, s, v, c, d);
      assert Separates(adj, v, c, d);
    } else {
      var c :| s.ClosedChild(c, v) && s.low[c] >= s.disc[v];
      var p := s.parent[v].value;
      assert s.ChildOf(v, p);
      EdgeIsLink(adj, v, c); EdgeIsLink(adj, p, v);
      LinkedTrans(EdgesOf(adj), p, v, c);
      LinkedSym(EdgesOf(adj), p, c);
      SubtreeSeparated(adj, s, v, c, p);
      assert Separates(adj, v, c, p);
    }
  }

  lemma SiblingsApart(adj: Graph, s: Search, v: nat, c: nat, d: nat)
    requires Forest(adj, s) && s.ChildOf(c, v) && s.ChildOf(d, v) && c != d
    ensures !s.Above(c, d)
  {
    assert NearestAt(s, c, d);
  }

  // ------------------------------------------------------------- completeness

  /** Walking up from x to its ancestor y does not meet v unless v lies in between. */
  lemma {:induction false} ClimbAvoids(adj: Graph, s: Search, v: nat, x: nat, y: nat)
    requires Undirected(adj) && Complete(adj, s)
    requires v in s.disc && x in s.disc && y in s.disc && s.Above(y, x)
    requires s.Above(v, x) ==> s.disc[v] < s.disc[y]
    ensures Linked(EdgesWithout(adj, v), x, y)
    decreases s.disc[x]
  {
    if x == y {
      LinkedRefl(EdgesWithout(adj, v), x);
    } else {
      assert NearestAt(s, y, x);
      var p := s.parent[x].value;
      assert s.ChildOf(x, p);
      assert s.Above(p, x);
      assert s.Above(y, p);
      assert s.Above(v, p) ==> s.Above(v, x) by {
        if s.Above(v, p) { LowCoversSubtree(adj, s, v, p); }
      }
      assert p != v && x != v;
      ClimbAvoids(adj, s, v, p, y);
      assert (p, x) in EdgesWithout(adj, v);
      LinkedEdge(EdgesWithout(adj, v), x, p);
      LinkedTrans(EdgesWithout(adj, v), x, p, y);
    }
  }

  /** The root of the tree that holds x. */
  ghost function Root(adj: Graph, s: Search, x: nat): nat
    requires Forest(adj, s) && x in s.disc
    decreases s.disc[x]
  {
    match s.parent[x]
    case None => x
    case Some(p) => assert s.ChildOf(x, p); Root(adj, s, p)
  }

  lemma {:induction false} RootIsAbove(adj: Graph, s: Search, x: nat)
    requires Forest(adj, s) && x in s.disc
    ensures var r := Root(adj, s, x); r in s.disc && s.parent[r].None? && s.Above(r, x) && s.Fin(x) <= s.Fin(r)
    decreases s.disc[x]
  {
    if s.parent[x].Some? {
      var p := s.parent[x].value;
      assert s.ChildOf(x, p);
      RootIsAbove(adj, s, p);
    }
  }

  lemma {:induction false} SameRootBelow(adj: Graph, s: Search, x: nat, y: nat)
    requires Forest(adj, s) && x in s.disc && y in s.disc && s.Above(y, x)
    ensures Root(adj, s, x) == Root(adj, s, y)
    decreases s.disc[x]
  {
    if x != y {
      assert NearestAt(s, y, x);
      var p := s.parent[x].value;
      assert s.ChildOf(x, p);
      SameRootBelow(adj, s, p, y);
    }
  }

  lemma JoinedEdges(adj: Graph, x: nat, y: nat)
    requires Undirected(adj) && Joined(EdgesOf(adj), x, y)
    ensures x in adj && y in adj && y in adj[x] && x in adj[y]
  {
  }

  lemma NeighboursShareRoot(adj: Graph, s: Search, x: nat, y: nat)
    requires Undirected(adj) && Complete(adj, s) && x in adj && y in adj[x]
    ensures y in s.disc && Root(adj, s, x) == Root(adj, s, y)
  {
    assert x in adj[y];
    if s.disc[x] < s.disc[y] {
      SameRootBelow(adj, s, y, x);
    } else {
      SameRootBelow(adj, s, x, y);
    }
  }

  ghost predicate InTree(adj: Graph, s: Search, r: nat, x: nat)
    requires Complete(adj, s)
  {
    x in s.disc && Root(adj, s, x) == r
  }

  lemma LinkedShareRoot(adj: Graph, s: Search, a: nat, b: nat)
    requires Undirected(adj) && Complete(adj, s) && a in s.disc
    requires Linked(EdgesOf(adj), a, b)
    ensures b in s.disc && Root(adj, s, b) == Root(adj, s, a)
  {
    var r := Root(adj, s, a);
    var inside := iset x: nat | InTree(adj, s, r, x);
    forall x: nat, y: nat | Joined(EdgesOf(adj), x, y) && x in inside
      ensures y in inside
    {
      JoinedEdges(adj, x, y);
      NeighboursShareRoot(adj, s, x, y);
    }
    LinkedStaysInside(EdgesOf(adj), inside, a, b);
  }

  /** The child of v on the way down to x. */
  lemma {:induction false} ChildTowards(adj: Graph, s: Search, v: nat, x: nat) returns (c: nat)
    requires Complete(adj, s) && v in s.disc && x in s.disc && s.Above(v, x) && x != v
    ensures c in s.disc && s.ClosedChild(c, v) && s.Above(c, x)
    decreases s.disc[x]
  {
    assert NearestAt(s, v, x);
    var p := s.parent[x].value;
    assert s.ChildOf(x, p);
    if p == v {
      c := x;
    } else {
      c := ChildTowards(adj, s, v, p);
      LowCoversSubtree(adj, s, c, p);
    }
  }

  /** A child subtree of an unflagged inner vertex v has an edge that jumps over v. */
  lemma EscapeAround(adj: Graph, s: Search, v: nat, c: nat) returns (y: nat)
    requires Undirected(adj) && Complete(adj, s) && v in s.disc && s.ClosedChild(c, v)
    requires s.low[c] < s.disc[v]
    ensures y in s.disc && y != v && !s.Above(v, y)
    ensures Root(adj, s, y) == Root(adj, s, c)
    ensures Linked(EdgesWithout(adj, v), c, y)
  {
    assert LowFound(adj, s, c);
    var w, z :| LowSource(adj, s, c, w, z);
    y := z;
    assert s.disc[y] < s.disc[v] < s.disc[c];
    SameRootBelow(adj, s, w, c);
    NeighboursShareRoot(adj, s, w, y);
    StepOut(adj, s, v, c, w, y);
  }

  lemma StepOut(adj: Graph, s: Search, v: nat, c: nat, w: nat, y: nat)
    requires Undirected(adj) && Complete(adj, s) && v in s.disc && s.ClosedChild(c, v)
    requires w in s.disc && s.Above(c, w) && y in adj[w] && y != v
    ensures Linked(EdgesWithout(adj, v), c, y)
  {
    ClimbAvoids(adj, s, v, w, c);
    LinkedSym(EdgesWithout(adj, v), w, c);
    assert (w, y) in EdgesWithout(adj, v);
    LinkedEdge(EdgesWithout(adj, v), w, y);
    LinkedTrans(EdgesWithout(adj, v), c, w, y);
  }

  /** From anywhere but an unflagged inner vertex v, the root is reachable without v. */
  lemma ReachesRootAround(adj: Graph, s: Search, v: nat, x: nat)
    requires Undirected(adj) && Complete(adj, s) && v in s.disc && x in s.disc && x != v
    requires !Flagged(s, v) && s.parent[v].Some?
    ensures Linked(EdgesWithout(adj, v), x, Root(adj, s, x))
  {
    RootIsAbove(adj, s, x);
    if !s.Above(v, x) {
      ClimbAvoids(adj, s, v, x, Root(adj, s, x));
    } else {
      var c := ChildTowards(adj, s, v, x);
      var y := EscapeAround(adj, s, v, c);
      SameRootBelow(adj, s, x, c);
      RootIsAbove(adj, s, y);
      ClimbAvoids(adj, s, v, x, c);
      ClimbAvoids(adj, s, v, y, Root(adj, s, y));
      LinkedTrans(EdgesWithout(adj, v), x, c, y);
      LinkedTrans(EdgesWithout(adj, v), x, y, Root(adj, s, y));
    }
  }

  /** Under an unflagged root there is a single child, which everything else hangs from. */
  lemma LinkedUnderRoot(adj: Graph, s: Search, v: nat, a: nat, b: nat)
    requires Undirected(adj) && Complete(adj, s) && v in s.disc && !Flagged(s, v) && s.parent[v].None?
    requires a in s.disc && b in s.disc && a != v && b != v && s.Above(v, a) && s.Above(v, b)
    ensures Linked(EdgesWithout(adj, v), a, b)
  {
    var c := ChildTowards(adj, s, v, a);
    var d := ChildTowards(adj, s, v, b);
    assert c == d;
    ClimbAvoids(adj, s, v, a, c);
    ClimbAvoids(adj, s, v, b, c);
    LinkedSym(EdgesWithout(adj, v), b, c);
    LinkedTrans(EdgesWithout(adj, v), a, c, b);
  }

  lemma UnflaggedIsNotCut(adj: Graph, s: Search, v: nat, a: nat, b: nat)
    requires Undirected(adj) && Complete(adj, s) && v in s.disc && !Flagged(s, v)
    requires a in s.disc && a != v && b != v && Linked(EdgesOf(adj), a, b)
    ensures Linked(EdgesWithout(adj, v), a, b)
  {
    LinkedShareRoot(adj, s, a, b);
    var r := Root(adj, s, a);
    RootIsAbove(adj, s, a);
    RootIsAbove(adj, s, b);
    if r == v {
      LinkedUnderRoot(adj, s, v, a, b);
    } else {
      RootReached(adj, s, v, a);
      RootReached(adj, s, v, b);
      LinkedSym(EdgesWithout(adj, v), b, r);
      LinkedTrans(EdgesWithout(adj, v), a, r, b);
    }
  }

  lemma RootReached(adj: Graph, s: Search, v: nat, x: nat)
    requires Undirected(adj) && Complete(adj, s) && v in s.disc && x in s.disc && x != v
    requires !Flagged(s, v) && Root(adj, s, x) != v
    ensures Linked(EdgesWithout(adj, v), x, Root(adj, s, x))
  {
    if s.parent[v].Some? {
      ReachesRootAround(adj, s, v, x);
    } else {
      if s.Above(v, x) {
        SameRootBelow(adj, s, x, v);
      }
      RootIsAbove(adj, s, x);
      ClimbAvoids(adj, s, v, x, Root(adj, s, x));
    }
  }

  lemma UnknownIsAlone(adj: Graph, a: nat, b: nat)
    requires Undirected(adj) && a !in adj && Linked(EdgesOf(adj), a, b)
    ensures a == b
  {
    LinkedStaysInside(EdgesOf(adj), iset{a}, a, b);
  }

  /** The low-link test over a finished search decides the textbook definition. */
  lemma FlaggedIffCut(adj: Graph, s: Search, v: nat)
    requires Undirected(adj) && Complete(adj, s) && v in adj
    ensures Flagged(s, v) <==> IsCutVertex(adj, v)
  {
    if Flagged(s, v) {
      FlaggedIsCut(adj, s, v);
    } else if IsCutVertex(adj, v) {
      var a, b :| Separates(adj, v, a, b);
      if a in adj {
        UnflaggedIsNotCut(adj, s, v, a, b);
      } else {
        UnknownIsAlone(adj, a, b);
        LinkedRefl(EdgesWithout(adj, v), a);
      }
    }
  }
}
