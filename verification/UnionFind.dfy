/** Union-find with path halving on an array (correlate.py). The ghost fields `rep` and `depth` say
    which root each node belongs to and that parents lead there; halving changes neither, so a
    `find` in the middle of anything never moves a representative. */
module UnionFind {
  import opened Paths

  /** i and j have the same representative exactly when the edges joined so far link them. */
  ghost predicate Represents(rep: seq<nat>, e: Edges) {
    forall i, j :: 0 <= i < |rep| && 0 <= j < |rep| ==> (rep[i] == rep[j] <==> Linked(e, i, j))
  }

  ghost function Merged(rep: seq<nat>, keep: nat, gone: nat): seq<nat> {
    seq(|rep|, i requires 0 <= i < |rep| => if rep[i] == gone then keep else rep[i])
  }

  lemma MergeRepresents(rep: seq<nat>, e: Edges, a: nat, b: nat)
    requires Represents(rep, e) && a < |rep| && b < |rep|
    ensures Represents(Merged(rep, rep[a], rep[b]), e + {(a, b)})
  {
    var m := Merged(rep, rep[a], rep[b]);
    forall i, j | 0 <= i < |m| && 0 <= j < |m|
      ensures m[i] == m[j] <==> Linked(e + {(a, b)}, i, j)
    {
      LinkedAddEdge(e, a, b, i, j);
    }
  }

  lemma SingletonsRepresent(n: nat)
    ensures Represents(seq(n, i => i), {})
  {
    forall i: nat, j: nat | i < n && j < n ensures i == j <==> Linked({}, i, j) {
      LinkedRefl({}, i);
      if Linked({}, i, j) {
        LinkedStaysInside({}, iset{i}, i, j);
      }
    }
  }

  /** Node i of a forest of parent pointers p with representatives rep; depth falls on the way up. */
  ghost predicate NodeOk(p: seq<nat>, rep: seq<nat>, depth: seq<nat>, i: nat)
    requires |p| == |rep| == |depth| && i < |p|
  {
    && p[i] < |p| && rep[i] < |p|
    && rep[p[i]] == rep[i] && rep[rep[i]] == rep[i]
    && (p[i] == i <==> rep[i] == i)
    && (p[i] != i ==> depth[p[i]] < depth[i])
  }

  ghost predicate IsForest(p: seq<nat>, rep: seq<nat>, depth: seq<nat>) {
    && |p| == |rep| == |depth|
    && forall i :: 0 <= i < |p| ==> NodeOk(p, rep, depth, i)
  }

  /** Path halving keeps every representative. */
  lemma HalvingKeepsForest(p: seq<nat>, rep: seq<nat>, depth: seq<nat>, i: nat)
    requires IsForest(p, rep, depth) && i < |p| && p[i] != i
    ensures p[i] < |p| && IsForest(p[i := p[p[i]]], rep, depth)
    ensures p[p[i]] < |p| && rep[p[p[i]]] == rep[i] && depth[p[p[i]]] < depth[i]
  {
    assert NodeOk(p, rep, depth, i);
    assert NodeOk(p, rep, depth, p[i]);
    assert NodeOk(p, rep, depth, p[p[i]]);
    assert NodeOk(p, rep, depth, rep[i]);
    var q := p[i := p[p[i]]];
    forall x | 0 <= x < |q| ensures NodeOk(q, rep, depth, x) {
      assert NodeOk(p, rep, depth, x);
    }
  }

  /** Depths after the tree of the root gone is hung under the root keep. */
  ghost function Deeper(rep: seq<nat>, depth: seq<nat>, keep: nat, gone: nat): seq<nat>
    requires |rep| == |depth| && keep < |depth|
  {
    seq(|depth|, x requires 0 <= x < |depth| =>
      if rep[x] == gone then depth[x] + depth[keep] + 1 else depth[x])
  }

  lemma HangingKeepsForest(p: seq<nat>, rep: seq<nat>, depth: seq<nat>, keep: nat, gone: nat)
    requires IsForest(p, rep, depth) && keep < |p| && gone < |p| && keep != gone
    requires rep[keep] == keep && rep[gone] == gone
    ensures IsForest(p[gone := keep], Merged(rep, keep, gone), Deeper(rep, depth, keep, gone))
  {
    var q, m, d := p[gone := keep], Merged(rep, keep, gone), Deeper(rep, depth, keep, gone);
    assert NodeOk(p, rep, depth, keep);
    forall x | 0 <= x < |q| ensures NodeOk(q, m, d, x) {
      assert NodeOk(p, rep, depth, x);
      assert NodeOk(p, rep, depth, rep[x]);
      assert NodeOk(p, rep, depth, p[x]);
    }
  }

  class Forest {
    const par: array<nat>
    ghost var rep: seq<nat>
    ghost var depth: seq<nat>

    ghost predicate Valid()
      reads this, par
    {
      IsForest(par[..], rep, depth)
    }

    constructor (n: nat)
      ensures Valid() && fresh(par) && rep == seq(n, i => i) && par.Length == n
    {
      par := new nat[n](i => i);
      rep := seq(n, i => i);
      depth := seq(n, _ => 0);
    }

    /** The root of i0; every second parent pointer on the way is shortened. */
    method Find(i0: nat) returns (i: nat)
      requires Valid() && i0 < par.Length
      modifies par
      ensures Valid() && i == rep[i0] && i < par.Length && rep[i] == i
    {
      i := i0;
      assert NodeOk(par[..], rep, depth, i);
      while par[i] != i
        invariant Valid() && i < par.Length && rep[i] == rep[i0]
        decreases depth[i]
      {
        HalvingKeepsForest(par[..], rep, depth, i);
        ghost var p := par[..];
        assert NodeOk(p, rep, depth, p[i]);
        par[i] := par[par[i]];
        assert par[..] == p[i := p[p[i]]];
        i := par[i];
      }
      assert NodeOk(par[..], rep, depth, i);
    }

    /** The tree of b is hung under the root of a. */
    method Union(a: nat, b: nat)
      requires Valid() && a < par.Length && b < par.Length
      modifies par, `rep, `depth
      ensures Valid() && rep == Merged(old(rep), old(rep[a]), old(rep[b]))
    {
      var ra := Find(a);
      var rb := Find(b);
      if ra != rb {
        ghost var p := par[..];
        HangingKeepsForest(p, rep, depth, ra, rb);
        depth := Deeper(rep, depth, ra, rb);
        rep := Merged(rep, ra, rb);
        par[rb] := ra;
        assert par[..] == p[rb := ra];
      } else {
        assert Merged(rep, ra, rb) == rep;
      }
    }
  }
}
