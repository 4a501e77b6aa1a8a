/** Paths over a finite set of undirected edges; shared by the cut-vertex finder and by incident
    clustering. `Linked` is the existence of a path, so it is the smallest equivalence that holds
    the edges, and every proof about components below goes through the few lemmas here: composition,
    refinement, renaming, and what one more edge connects. */
module Paths {

  type Edges = set<(nat, nat)>

  predicate Joined(e: Edges, a: nat, b: nat) {
    (a, b) in e || (b, a) in e
  }

  ghost predicate IsPath(e: Edges, p: seq<nat>) {
    && p != []
    && forall i :: 0 <= i < |p| - 1 ==> Joined(e, p[i], p[i + 1])
  }

  ghost predicate Runs(e: Edges, p: seq<nat>, a: nat, b: nat) {
    IsPath(e, p) && p[0] == a && p[|p| - 1] == b
  }

  ghost predicate Linked(e: Edges, a: nat, b: nat) {
    exists p :: Runs(e, p, a, b)
  }

  lemma LinkedRefl(e: Edges, a: nat)
    ensures Linked(e, a, a)
  {
    assert Runs(e, [a], a, a);
  }

  lemma LinkedEdge(e: Edges, a: nat, b: nat)
    requires Joined(e, a, b)
    ensures Linked(e, a, b)
  {
    assert Runs(e, [a, b], a, b);
  }

  lemma LinkedTrans(e: Edges, a: nat, b: nat, c: nat)
    requires Linked(e, a, b) && Linked(e, b, c)
    ensures Linked(e, a, c)
  {
    var p :| Runs(e, p, a, b);
    var q :| Runs(e, q, b, c);
    var r := p + q[1..];
    forall i | 0 <= i < |r| - 1
      ensures Joined(e, r[i], r[i + 1])
    {
      if i >= |p| - 1 {
        assert Joined(e, q[i - |p| + 1], q[i - |p| + 2]);
      }
    }
    assert Runs(e, r, a, c);
  }

  lemma LinkedSym(e: Edges, a: nat, b: nat)
    requires Linked(e, a, b)
    ensures Linked(e, b, a)
  {
    var p :| Runs(e, p, a, b);
    var r := seq(|p|, i requires 0 <= i < |p| => p[|p| - 1 - i]);
    forall i | 0 <= i < |r| - 1
      ensures Joined(e, r[i], r[i + 1])
    {
      assert Joined(e, p[|p| - 2 - i], p[|p| - 1 - i]);
    }
    assert Runs(e, r, b, a);
  }

  /** A set that no edge leaves keeps everything linked to its members. */
  lemma {:induction false} LinkedStaysInside(e: Edges, inside: iset<nat>, a: nat, b: nat)
    requires forall x: nat, y: nat :: Joined(e, x, y) && x in inside ==> y in inside
    requires a in inside && Linked(e, a, b)
    ensures b in inside
  {
    var p :| Runs(e, p, a, b);
    PathStaysInside(e, inside, p, |p| - 1);
  }

  lemma {:induction false} PathStaysInside(e: Edges, inside: iset<nat>, p: seq<nat>, n: nat)
    requires forall x: nat, y: nat :: Joined(e, x, y) && x in inside ==> y in inside
    requires IsPath(e, p) && p[0] in inside && n < |p|
    ensures p[n] in inside
  {
    if n > 0 {
      PathStaysInside(e, inside, p, n - 1);
      assert Joined(e, p[n - 1], p[n]);
    }
  }

  /** If every edge of one graph is a link of another, so is every link. */
  lemma LinkedRefine(e: Edges, f: Edges, a: nat, b: nat)
    requires forall x: nat, y: nat :: (x, y) in e ==> Linked(f, x, y)
    requires Linked(e, a, b)
    ensures Linked(f, a, b)
  {
    var inside := iset x | Linked(f, a, x);
    LinkedRefl(f, a);
    forall x: nat, y: nat | Joined(e, x, y) && x in inside
      ensures y in inside
    {
      if (x, y) !in e {
        LinkedSym(f, y, x);
      }
      LinkedTrans(f, a, x, y);
    }
    LinkedStaysInside(e, inside, a, b);
  }

  lemma LinkedMono(e: Edges, f: Edges, a: nat, b: nat)
    requires e <= f && Linked(e, a, b)
    ensures Linked(f, a, b)
  {
    var p :| Runs(e, p, a, b);
    assert forall i :: 0 <= i < |p| - 1 && Joined(e, p[i], p[i + 1]) ==> Joined(f, p[i], p[i + 1]);
    assert Runs(f, p, a, b);
  }

  /** Renaming vertices along m carries links over if it carries edges over. */
  lemma LinkedRename(e: Edges, f: Edges, m: seq<nat>, a: nat, b: nat)
    requires forall x: nat, y: nat :: (x, y) in e ==> x < |m| && y < |m| && Linked(f, m[x], m[y])
    requires a < |m| && b < |m| && Linked(e, a, b)
    ensures Linked(f, m[a], m[b])
  {
    var inside := iset x: nat | x < |m| && Linked(f, m[a], m[x]);
    LinkedRefl(f, m[a]);
    forall x: nat, y: nat | Joined(e, x, y) && x in inside
      ensures y in inside
    {
      if (x, y) !in e {
        LinkedSym(f, m[y], m[x]);
      }
      LinkedTrans(f, m[a], m[x], m[y]);
    }
    LinkedStaysInside(e, inside, a, b);
  }

  /** Adding one edge merges exactly the two classes it touches. */
  lemma LinkedAddEdge(e: Edges, u: nat, v: nat, a: nat, b: nat)
    ensures Linked(e + {(u, v)}, a, b) <==>
            || Linked(e, a, b)
            || (Linked(e, a, u) && Linked(e, v, b))
            || (Linked(e, a, v) && Linked(e, u, b))
  {
    var f := e + {(u, v)};
    forall x: nat, y: nat | (x, y) in e ensures Linked(f, x, y) { LinkedEdge(f, x, y); }
    LinkedEdge(f, u, v);
    LinkedEdge(f, v, u);
    if Linked(e, a, b) { LinkedRefine(e, f, a, b); }
    if Linked(e, a, u) && Linked(e, v, b) {
      LinkedRefine(e, f, a, u); LinkedRefine(e, f, v, b);
      LinkedTrans(f, a, u, v); LinkedTrans(f, a, v, b);
    }
    if Linked(e, a, v) && Linked(e, u, b) {
      LinkedRefine(e, f, a, v); LinkedRefine(e, f, u, b);
      LinkedTrans(f, a, v, u); LinkedTrans(f, a, u, b);
    }
    if Linked(f, a, b) {
      var inside := iset x | || Linked(e, a, x)
                             || (Linked(e, a, u) && Linked(e, v, x))
                             || (Linked(e, a, v) && Linked(e, u, x));
      LinkedRefl(e, a); LinkedRefl(e, u); LinkedRefl(e, v);
      forall x: nat, y: nat | Joined(f, x, y) && x in inside
        ensures y in inside
      {
        if Joined(e, x, y) {
          LinkedEdge(e, x, y);
          if Linked(e, a, x) { LinkedTrans(e, a, x, y); }
          else if Linked(e, v, x) && Linked(e, a, u) { LinkedTrans(e, v, x, y); }
          else { LinkedTrans(e, u, x, y); }
        }
      }
      LinkedStaysInside(f, inside, a, b);
    }
  }
}
