/** The graph the blast-radius analysis searches, built from a topology record (analytics.py). */
module Topology {
  import opened ArticulationPoints
  import opened DfsForest
  import opened Paths

  /** Names are ranked; 0 is the empty name. */
  predicate Usable(e: (nat, nat)) {
    e.0 != 0 && e.1 != 0 && e.0 != e.1
  }

  /** The usable links, in both directions. */
  ghost predicate Link(edges: seq<(nat, nat)>, x: nat, y: nat) {
    Usable((x, y)) && ((x, y) in edges || (y, x) in edges)
  }

  ghost predicate HasLink(edges: seq<(nat, nat)>, x: nat) {
    exists y :: Link(edges, x, y)
  }

  /** Exactly the usable links, and a vertex for every non-empty name and every linked one. */
  ghost predicate Reflects(adj: Graph, names: seq<nat>, edges: seq<(nat, nat)>) {
    && (forall x :: x in adj <==> (x != 0 && x in names) || HasLink(edges, x))
    && (forall x, y :: x in adj && y in adj[x] <==> Link(edges, x, y))
  }

  function Neighbours(adj: Graph, x: nat): set<nat> {
    if x in adj then adj[x] else {}
  }

  lemma LinkMore(edges: seq<(nat, nat)>, e: (nat, nat), x: nat, y: nat)
    ensures Link(edges + [e], x, y) <==> Link(edges, x, y) || (Usable(e) && (e == (x, y) || e == (y, x)))
  {
  }

  lemma HasLinkMore(edges: seq<(nat, nat)>, e: (nat, nat), x: nat)
    ensures HasLink(edges + [e], x) <==> HasLink(edges, x) || (Usable(e) && (x == e.0 || x == e.1))
  {
    if HasLink(edges, x) {
      var y :| Link(edges, x, y);
      LinkMore(edges, e, x, y);
    }
    if HasLink(edges + [e], x) {
      var y :| Link(edges + [e], x, y);
      LinkMore(edges, e, x, y);
    }
    LinkMore(edges, e, e.0, e.1);
    LinkMore(edges, e, e.1, e.0);
  }

  /** Both `setdefault(...).add(...)` of one usable edge. */
  function WithEdge(adj: Graph, e: (nat, nat)): Graph {
    var once := adj[e.0 := Neighbours(adj, e.0) + {e.1}];
    once[e.1 := Neighbours(once, e.1) + {e.0}]
  }

  lemma EdgeReflected(adj: Graph, names: seq<nat>, edges: seq<(nat, nat)>, e: (nat, nat))
    requires Reflects(adj, names, edges)
    ensures Reflects(if Usable(e) then WithEdge(adj, e) else adj, names, edges + [e])
  {
    var next := if Usable(e) then WithEdge(adj, e) else adj;
    forall x ensures x in next <==> (x != 0 && x in names) || HasLink(edges + [e], x) {
      HasLinkMore(edges, e, x);
    }
    forall x, y ensures x in next && y in next[x] <==> Link(edges + [e], x, y) {
      LinkMore(edges, e, x, y);
      assert x in adj && y in adj[x] <==> Link(edges, x, y);
    }
  }

  /** `_adjacency` */
  method Adjacency(names: seq<nat>, edges: seq<(nat, nat)>) returns (adj: Graph)
    ensures Reflects(adj, names, edges) && Undirected(adj)
  {
    adj := map x | x in names && x != 0 :: {};
    for i := 0 to |edges|
      invariant Reflects(adj, names, edges[..i])
    {
      assert edges[..i + 1] == edges[..i] + [edges[i]];
      EdgeReflected(adj, names, edges[..i], edges[i]);
      if Usable(edges[i]) {
        adj := WithEdge(adj, edges[i]);
      }
    }
    assert edges[..|edges|] == edges;
    forall x, y | x in adj && y in adj[x] ensures y != x && y in adj && x in adj[y] {
      assert Link(edges, y, x);
    }
  }

  ghost function Links(edges: seq<(nat, nat)>): Edges {
    (set e | e in edges && Usable(e)) + set e | e in edges && Usable(e) :: (e.1, e.0)
  }

  ghost function LinksWithout(edges: seq<(nat, nat)>, v: nat): Edges {
    set e | e in Links(edges) && e.0 != v && e.1 != v
  }

  /** Two other devices are connected, but not by links that avoid v. */
  ghost predicate OnlyThrough(edges: seq<(nat, nat)>, v: nat) {
    exists a: nat, b: nat ::
      a != v && b != v && Linked(Links(edges), a, b) && !Linked(LinksWithout(edges, v), a, b)
  }

  /** The cut vertices of a topology record: the devices through which alone two others connect. */
  method CutDevices(names: seq<nat>, edges: seq<(nat, nat)>) returns (cuts: set<nat>)
    ensures forall v :: v in cuts <==> OnlyThrough(edges, v)
  {
    var adj := Adjacency(names, edges);
    cuts := ArticulationPoints.ArticulationPoints(adj);
    forall v ensures v in cuts <==> OnlyThrough(edges, v) {
      SameCuts(adj, names, edges, v);
    }
  }

  lemma SameEdges(adj: Graph, names: seq<nat>, edges: seq<(nat, nat)>, v: nat)
    requires Reflects(adj, names, edges)
    ensures EdgesOf(adj) == Links(edges) && EdgesWithout(adj, v) == LinksWithout(edges, v)
  {
    forall x: nat, y: nat ensures (x, y) in EdgesOf(adj) <==> (x, y) in Links(edges) {
      assert x in adj && y in adj[x] <==> Link(edges, x, y);
      assert (y, x) in edges && Usable((y, x)) ==> (x, y) in Links(edges);
    }
    forall x: nat, y: nat ensures (x, y) in EdgesWithout(adj, v) <==> (x, y) in LinksWithout(edges, v) {
      assert (x, y) in EdgesWithout(adj, v) <==> (x, y) in EdgesOf(adj) && x != v && y != v;
    }
  }

  lemma NoEdgesOfStrangers(adj: Graph, names: seq<nat>, edges: seq<(nat, nat)>, v: nat)
    requires Reflects(adj, names, edges) && v !in adj
    ensures LinksWithout(edges, v) == Links(edges)
  {
    SameEdges(adj, names, edges, v);
    forall x: nat, y: nat | (x, y) in Links(edges) ensures x != v && y != v {
      assert (x, y) in EdgesOf(adj);
      assert Link(edges, x, y) && Link(edges, y, x);
    }
  }

  lemma SameCuts(adj: Graph, names: seq<nat>, edges: seq<(nat, nat)>, v: nat)
    requires Reflects(adj, names, edges)
    ensures v in adj && IsCutVertex(adj, v) <==> OnlyThrough(edges, v)
  {
    SameEdges(adj, names, edges, v);
    if v !in adj {
      NoEdgesOfStrangers(adj, names, edges, v);
    }
    if a: nat, b: nat :| a != v && b != v && Linked(Links(edges), a, b) && !Linked(LinksWithout(edges, v), a, b) {
      assert Separates(adj, v, a, b);
    }
    if IsCutVertex(adj, v) {
      var a: nat, b: nat :| Separates(adj, v, a, b);
    }
  }
}
