/** The greedy root-cause pass of evpn_causal.py and the relation it solves. */
module EvpnCausal {
  import opened Ordering

  const VTEP_NVE: nat := 4
  const UNKNOWN: nat := 99
  const PEER_WINDOW: int := 5_000_000

  /** Times in microseconds; device 0 is the empty name. */
  datatype FabricEvent = FabricEvent(id: nat, time: int, device: nat, layer: nat)

  type Adjacency = map<nat, set<nat>>

  function Neighbours(adj: Adjacency, device: nat): set<nat> {
    if device in adj then adj[device] else {}
  }

  ghost predicate Adjacent(adj: Adjacency, a: nat, b: nat) {
    b in Neighbours(adj, a)
  }

  ghost predicate Symmetric(adj: Adjacency) {
    forall a, b :: Adjacent(adj, a, b) ==> a != b && Adjacent(adj, b, a)
  }

  function Linked(adj: Adjacency, a: nat, b: nat): Adjacency {
    var once := adj[a := Neighbours(adj, a) + {b}];
    once[b := Neighbours(once, b) + {a}]
  }

  /** A non-empty name listed for another device, in either direction. */
  ghost predicate Listed(k: nat, vs: seq<nat>, a: nat, b: nat) {
    a != b && ((a == k && b in vs && b != 0) || (b == k && a in vs && a != 0))
  }

  ghost predicate Given(given: map<nat, seq<nat>>, keys: set<nat>, a: nat, b: nat) {
    exists k :: k in keys && k in given && Listed(k, given[k], a, b)
  }

  lemma LinkedAt(adj: Adjacency, k: nat, v: nat, a: nat, b: nat)
    requires k != v
    ensures Adjacent(Linked(adj, k, v), a, b) <==> Adjacent(adj, a, b) || (a == k && b == v) || (a == v && b == k)
  {
  }

  /** The engine's constructor: the given map made symmetric and loop-free, nothing added or lost. */
  method BuildAdjacency(given: map<nat, seq<nat>>) returns (adj: Adjacency)
    ensures Symmetric(adj)
    ensures forall a, b :: Adjacent(adj, a, b) <==> Given(given, given.Keys, a, b)
  {
    adj := map[];
    var todo, done := given.Keys, {};
    while todo != {}
      invariant todo + done == given.Keys && Symmetric(adj)
      invariant forall a, b :: Adjacent(adj, a, b) <==> Given(given, done, a, b)
      decreases todo
    {
      var k :| k in todo;
      ghost var before := adj;
      adj := AddNeighbours(adj, k, given[k]);
      forall a, b ensures Adjacent(adj, a, b) <==> Given(given, done + {k}, a, b) {
        assert Adjacent(adj, a, b) <==> Adjacent(before, a, b) || Listed(k, given[k], a, b);
      }
      todo, done := todo - {k}, done + {k};
    }
    assert done == given.Keys;
  }

  method AddNeighbours(adj0: Adjacency, k: nat, vs: seq<nat>) returns (adj: Adjacency)
    requires Symmetric(adj0)
    ensures Symmetric(adj)
    ensures forall a, b :: Adjacent(adj, a, b) <==> Adjacent(adj0, a, b) || Listed(k, vs, a, b)
  {
    adj := if k in adj0 then adj0 else adj0[k := {}];
    assert forall a, b :: Adjacent(adj, a, b) <==> Adjacent(adj0, a, b);
    for i := 0 to |vs|
      invariant Symmetric(adj)
      invariant forall a, b :: Adjacent(adj, a, b) <==> Adjacent(adj0, a, b) || Listed(k, vs[..i], a, b)
    {
      ghost var before := adj;
      assert vs[..i + 1] == vs[..i] + [vs[i]];
      ghost var seen := vs[..i + 1];
      if vs[i] != 0 && vs[i] != k {
        adj := Linked(adj, k, vs[i]);
        forall a, b ensures Adjacent(adj, a, b) <==> Adjacent(adj0, a, b) || Listed(k, seen, a, b) {
          LinkedAt(before, k, vs[i], a, b);
          assert Adjacent(before, a, b) <==> Adjacent(adj0, a, b) || Listed(k, vs[..i], a, b);
        }
      } else {
        forall a, b ensures Adjacent(adj, a, b) <==> Adjacent(adj0, a, b) || Listed(k, seen, a, b) {
          assert Adjacent(before, a, b) <==> Adjacent(adj0, a, b) || Listed(k, vs[..i], a, b);
        }
      }
      assert forall a, b :: Listed(k, seen, a, b) ==> Listed(k, seen, b, a);
    }
    assert vs[..|vs|] == vs;
  }

  // ------------------------------------------------------------- the relation

  /** `_is_topologically_coupled`: same device, a neighbour, or two hops for overlay symptoms. */
  predicate Coupled(adj: Adjacency, root: nat, symptom: nat, layer: nat) {
    || root == symptom
    || symptom in Neighbours(adj, root)
    || (layer >= VTEP_NVE && exists via :: via in Neighbours(adj, root) && symptom in Neighbours(adj, via))
  }

  /** What the inner loop asks of a candidate and a later event. */
  predicate Explains(adj: Adjacency, window: int, a: FabricEvent, b: FabricEvent) {
    var delta := b.time - a.time;
    && 0 <= delta <= window
    && (b.layer > a.layer || (b.layer == a.layer && b.device in Neighbours(adj, a.device) && delta <= PEER_WINDOW))
    && Coupled(adj, a.device, b.device, b.layer)
  }

  /** Events sharing an id are repeats of one line: the id is a digest of stamp, device and text. */
  ghost predicate IdsAreDigests(events: seq<FabricEvent>) {
    forall a, b :: a in events && b in events && a.id == b.id ==> a == b
  }

  /** Event i explains the later event j. */
  ghost predicate Forward(adj: Adjacency, window: int, o: seq<FabricEvent>, i: nat, j: nat) {
    i < j < |o| && Explains(adj, window, o[i], o[j])
  }

  /** Not explained by any earlier root. */
  ghost predicate IsRoot(adj: Adjacency, window: int, o: seq<FabricEvent>, j: nat)
    decreases j
  {
    j < |o| && forall i: nat :: i < j && IsRoot(adj, window, o, i) ==> !Forward(adj, window, o, i, j)
  }

  /** A kernel: no member explains another, everything else is explained by a member. */
  ghost predicate IsKernel(adj: Adjacency, window: int, o: seq<FabricEvent>, k: set<nat>) {
    && (forall j :: j in k ==> j < |o|)
    && (forall i, j :: i in k && j in k ==> !Forward(adj, window, o, i, j))
    && (forall j: nat :: j < |o| && j !in k ==> exists i :: i in k && Forward(adj, window, o, i, j))
  }

  ghost function Roots(adj: Adjacency, window: int, o: seq<FabricEvent>): set<nat> {
    set j: nat | j < |o| && IsRoot(adj, window, o, j)
  }

  lemma RootsAreKernel(adj: Adjacency, window: int, o: seq<FabricEvent>)
    ensures IsKernel(adj, window, o, Roots(adj, window, o))
  {
    var k := Roots(adj, window, o);
    forall j: nat | j < |o| && j !in k ensures exists i :: i in k && Forward(adj, window, o, i, j) {
      var i: nat :| i < j && IsRoot(adj, window, o, i) && Forward(adj, window, o, i, j);
      assert i in k;
    }
  }

  lemma {:induction false} KernelDecides(adj: Adjacency, window: int, o: seq<FabricEvent>, k: set<nat>, j: nat)
    requires IsKernel(adj, window, o, k) && j < |o|
    ensures j in k <==> IsRoot(adj, window, o, j)
    decreases j
  {
    forall i: nat | i < j ensures i in k <==> IsRoot(adj, window, o, i) {
      KernelDecides(adj, window, o, k, i);
    }
    if j !in k {
      var i :| i in k && Forward(adj, window, o, i, j);
      assert IsRoot(adj, window, o, i);
    }
  }

  /** The forward relation has exactly one kernel. */
  lemma KernelIsUnique(adj: Adjacency, window: int, o: seq<FabricEvent>, k: set<nat>)
    requires IsKernel(adj, window, o, k)
    ensures k == Roots(adj, window, o)
  {
    forall j: nat | j < |o| { KernelDecides(adj, window, o, k, j); }
  }

  /** r is the earliest root that explains j. */
  ghost predicate IsCause(adj: Adjacency, window: int, o: seq<FabricEvent>, r: nat, j: nat) {
    && IsRoot(adj, window, o, r) && Forward(adj, window, o, r, j)
    && forall i: nat :: i < r && IsRoot(adj, window, o, i) ==> !Forward(adj, window, o, i, j)
  }

  /** Repeats of one line have the same cause. */
  lemma RepeatsShareCause(adj: Adjacency, window: int, o: seq<FabricEvent>, r: nat, i: nat, j: nat)
    requires i < |o| && j < |o| && o[i] == o[j] && IsCause(adj, window, o, r, i)
    requires r < j
    ensures IsCause(adj, window, o, r, j)
  {
    forall x: nat | x < r && IsRoot(adj, window, o, x) ensures !Forward(adj, window, o, x, j) {
      assert Forward(adj, window, o, x, j) ==> Forward(adj, window, o, x, i);
    }
  }

  // ------------------------------------------------------------------ the pass

  /** A root and its symptoms, as positions in the sorted events; confidence in hundredths. */
  datatype Hypothesis = Hypothesis(root: nat, symptoms: seq<nat>, confidence: nat)

  ghost predicate ClaimedBy(adj: Adjacency, window: int, o: seq<FabricEvent>, upTo: nat, id: nat) {
    exists r: nat, j: nat :: r < upTo && IsRoot(adj, window, o, r) && Forward(adj, window, o, r, j) && o[j].id == id
  }

  ghost predicate ClaimedBefore(adj: Adjacency, window: int, o: seq<FabricEvent>, r: nat, claimed: set<nat>) {
    forall id :: id in claimed <==> ClaimedBy(adj, window, o, r, id)
  }

  /** The claimed ids decide roothood, repeats included. */
  lemma ClaimedIsExplained(adj: Adjacency, window: int, o: seq<FabricEvent>, j: nat)
    requires IdsAreDigests(o) && j < |o|
    ensures ClaimedBy(adj, window, o, j, o[j].id) <==> !IsRoot(adj, window, o, j)
  {
    if ClaimedBy(adj, window, o, j, o[j].id) {
      var r: nat, x: nat :| r < j && IsRoot(adj, window, o, r) && Forward(adj, window, o, r, x) && o[x].id == o[j].id;
      assert o[x] in o && o[j] in o;
      assert Forward(adj, window, o, r, j);
    }
  }

  /** r explains j, no earlier event r explains repeats j, and no claimed id is taken again. */
  ghost predicate Symptom(adj: Adjacency, window: int, o: seq<FabricEvent>, claimed: set<nat>, r: nat, j: nat) {
    && Forward(adj, window, o, r, j) && o[j].id !in claimed
    && forall x: nat :: x < j && Forward(adj, window, o, r, x) ==> o[x].id != o[j].id
  }

  function Confidence(o: seq<FabricEvent>, r: nat, symptoms: seq<nat>): nat
    requires r < |o| && forall j :: j in symptoms ==> j < |o|
  {
    var base := if o[r].layer == 1 then 65 else 55;
    var boost := if 8 * |symptoms| < 30 then 8 * |symptoms| else 30;
    var span := if exists j :: j in symptoms && o[j].layer >= VTEP_NVE then 5 else 0;
    if base + boost + span < 99 then base + boost + span else 99
  }

  ghost predicate InRange(o: seq<FabricEvent>, symptoms: seq<nat>) {
    forall j :: j in symptoms ==> j < |o|
  }

  /** Position j, or an earlier repeat of it, is among the symptoms. */
  ghost predicate Mentioned(o: seq<FabricEvent>, symptoms: seq<nat>, j: nat) {
    j < |o| && exists x :: x in symptoms && x <= j && o[x].id == o[j].id
  }

  ghost predicate NoRepeats(o: seq<FabricEvent>, symptoms: seq<nat>)
    requires InRange(o, symptoms)
  {
    forall i, j :: i in symptoms && j in symptoms && i != j ==> o[i].id != o[j].id
  }

  /** The symptoms are the events whose earliest explaining root is h's, each line once. */
  ghost predicate IsHypothesis(adj: Adjacency, window: int, o: seq<FabricEvent>, h: Hypothesis) {
    && IsRoot(adj, window, o, h.root)
    && Ascending(h.symptoms) && InRange(o, h.symptoms) && NoRepeats(o, h.symptoms)
    && (forall j :: j in h.symptoms ==> IsCause(adj, window, o, h.root, j))
    && (forall j: nat {:trigger Mentioned(o, h.symptoms, j)} ::
          IsCause(adj, window, o, h.root, j) ==> Mentioned(o, h.symptoms, j))
    && h.confidence == Confidence(o, h.root, h.symptoms)
  }

  ghost predicate ExplainsId(adj: Adjacency, window: int, o: seq<FabricEvent>, r: nat, upTo: nat, id: nat) {
    exists j: nat :: j < upTo && Forward(adj, window, o, r, j) && o[j].id == id
  }

  predicate Ranked(a: Hypothesis, b: Hypothesis) {
    a.confidence > b.confidence || (a.confidence == b.confidence && |a.symptoms| >= |b.symptoms|)
  }

  lemma ExplainsIdNext(adj: Adjacency, window: int, o: seq<FabricEvent>, r: nat, j: nat, id: nat)
    requires r < j < |o|
    ensures ExplainsId(adj, window, o, r, j + 1, id) <==>
              ExplainsId(adj, window, o, r, j, id) || (Explains(adj, window, o[r], o[j]) && id == o[j].id)
  {
    if ExplainsId(adj, window, o, r, j, id) {
      var x: nat :| x < j && Forward(adj, window, o, r, x) && o[x].id == id;
      assert x < j + 1;
    }
    if Explains(adj, window, o[r], o[j]) && id == o[j].id {
      assert Forward(adj, window, o, r, j);
    }
  }

  /** The inner loop over the events after a candidate. */
  method ClaimSymptoms(adj: Adjacency, window: int, o: seq<FabricEvent>, r: nat, claimed0: set<nat>)
    returns (symptoms: seq<nat>, claimed: set<nat>)
    requires r < |o|
    ensures Ascending(symptoms)
    ensures forall j: nat :: j in symptoms <==> Symptom(adj, window, o, claimed0, r, j)
    ensures forall id :: id in claimed <==> id in claimed0 || ExplainsId(adj, window, o, r, |o|, id)
  {
    symptoms, claimed := [], claimed0;
    for j := r + 1 to |o|
      invariant Ascending(symptoms) && forall k :: 0 <= k < |symptoms| ==> symptoms[k] < j
      invariant forall x: nat :: x in symptoms <==> x < j && Symptom(adj, window, o, claimed0, r, x)
      invariant forall id :: id in claimed <==> id in claimed0 || ExplainsId(adj, window, o, r, j, id)
    {
      ghost var next: nat := j + 1;
      forall id ensures ExplainsId(adj, window, o, r, next, id) <==>
                          ExplainsId(adj, window, o, r, j, id) || (Explains(adj, window, o[r], o[j]) && id == o[j].id)
      {
        ExplainsIdNext(adj, window, o, r, j, id);
      }
      assert Symptom(adj, window, o, claimed0, r, j) <==> o[j].id !in claimed && Explains(adj, window, o[r], o[j]);
      if o[j].id !in claimed && Explains(adj, window, o[r], o[j]) {
        symptoms, claimed := symptoms + [j], claimed + {o[j].id};
      }
    }
  }

  lemma SymptomsAreCaused(adj: Adjacency, window: int, o: seq<FabricEvent>, claimed: set<nat>, r: nat, j: nat)
    requires IsRoot(adj, window, o, r)
    requires ClaimedBefore(adj, window, o, r, claimed)
    requires Symptom(adj, window, o, claimed, r, j)
    ensures IsCause(adj, window, o, r, j)
  {
    forall i: nat | i < r && IsRoot(adj, window, o, i) ensures !Forward(adj, window, o, i, j) {
      assert !ClaimedBy(adj, window, o, r, o[j].id);
    }
  }

  /** The first repeat of an event r causes is taken as its symptom. */
  lemma {:induction false} CausedIsTaken(adj: Adjacency, window: int, o: seq<FabricEvent>, claimed: set<nat>, r: nat,
                                         j: nat)
    returns (x: nat)
    requires IdsAreDigests(o) && IsCause(adj, window, o, r, j)
    requires ClaimedBefore(adj, window, o, r, claimed)
    ensures x <= j && Symptom(adj, window, o, claimed, r, x) && o[x].id == o[j].id
  {
    if i: nat :| i < j && Forward(adj, window, o, r, i) && o[i].id == o[j].id {
      assert o[i] in o && o[j] in o;
      RepeatsShareCause(adj, window, o, r, j, i);
      x := CausedIsTaken(adj, window, o, claimed, r, i);
    } else {
      x := j;
      CausedIsFree(adj, window, o, r, j);
    }
  }

  /** No earlier root claimed the id of an event r causes. */
  lemma CausedIsFree(adj: Adjacency, window: int, o: seq<FabricEvent>, r: nat, j: nat)
    requires IdsAreDigests(o) && IsCause(adj, window, o, r, j)
    ensures !ClaimedBy(adj, window, o, r, o[j].id)
  {
    forall q: nat, y: nat | q < r && IsRoot(adj, window, o, q) && Forward(adj, window, o, q, y)
      ensures o[y].id != o[j].id
    {
      assert o[y] in o && o[j] in o;
      assert o[y].id == o[j].id ==> Forward(adj, window, o, q, j);
    }
  }

  /** What one candidate's pass builds is its hypothesis. */
  lemma PassBuildsHypothesis(adj: Adjacency, window: int, o: seq<FabricEvent>, claimed: set<nat>, r: nat,
                             symptoms: seq<nat>)
    requires IdsAreDigests(o) && IsRoot(adj, window, o, r)
    requires ClaimedBefore(adj, window, o, r, claimed)
    requires Ascending(symptoms)
    requires forall j: nat :: j in symptoms <==> Symptom(adj, window, o, claimed, r, j)
    ensures (forall j :: j in symptoms ==> j < |o|)
    ensures IsHypothesis(adj, window, o, Hypothesis(r, symptoms, Confidence(o, r, symptoms)))
  {
    forall j | j in symptoms ensures j < |o| && IsCause(adj, window, o, r, j) {
      assert Symptom(adj, window, o, claimed, r, j);
      SymptomsAreCaused(adj, window, o, claimed, r, j);
    }
    forall j: nat | IsCause(adj, window, o, r, j) ensures Mentioned(o, symptoms, j) {
      var x := CausedIsTaken(adj, window, o, claimed, r, j);
      assert x in symptoms;
    }
    forall i, j | i in symptoms && j in symptoms && i != j ensures o[i].id != o[j].id {
      assert Symptom(adj, window, o, claimed, r, i) && Symptom(adj, window, o, claimed, r, j);
    }
  }

  /** One hypothesis for every root, in the order of the roots. */
  ghost predicate OnePerRoot(adj: Adjacency, window: int, o: seq<FabricEvent>, upTo: nat, found: seq<Hypothesis>) {
    && (forall i, j :: 0 <= i < j < |found| ==> found[i].root < found[j].root)
    && (forall i :: 0 <= i < |found| ==> found[i].root < upTo && IsHypothesis(adj, window, o, found[i]))
    && (forall r: nat :: r < upTo && IsRoot(adj, window, o, r) ==> exists i :: 0 <= i < |found| && found[i].root == r)
  }

  lemma ClaimedNext(adj: Adjacency, window: int, o: seq<FabricEvent>, r: nat, claimed: set<nat>, next: set<nat>)
    requires r < |o| && IsRoot(adj, window, o, r)
    requires ClaimedBefore(adj, window, o, r, claimed)
    requires forall id :: id in next <==> id in claimed || ExplainsId(adj, window, o, r, |o|, id)
    ensures ClaimedBefore(adj, window, o, r + 1, next)
  {
    forall id ensures id in next <==> ClaimedBy(adj, window, o, r + 1, id) {
      if ClaimedBy(adj, window, o, r + 1, id) {
        var q: nat, j: nat :| q < r + 1 && IsRoot(adj, window, o, q) && Forward(adj, window, o, q, j) && o[j].id == id;
        assert q < r ==> ClaimedBy(adj, window, o, r, id);
      }
    }
  }

  lemma ExtendedKeeps(adj: Adjacency, window: int, o: seq<FabricEvent>, found: seq<Hypothesis>, h: Hypothesis)
    requires OnePerRoot(adj, window, o, h.root, found) && IsHypothesis(adj, window, o, h)
    ensures OnePerRoot(adj, window, o, h.root + 1, found + [h])
  {
    var more := found + [h];
    assert more[|found|].root == h.root;
    forall r: nat | r < h.root && IsRoot(adj, window, o, r) ensures exists i :: 0 <= i < |more| && more[i].root == r {
      var i :| 0 <= i < |found| && found[i].root == r;
      assert more[i].root == r;
    }
  }

  lemma SkippedKeeps(adj: Adjacency, window: int, o: seq<FabricEvent>, r: nat, found: seq<Hypothesis>,
                     claimed: set<nat>)
    requires OnePerRoot(adj, window, o, r, found) && ClaimedBefore(adj, window, o, r, claimed)
    requires !IsRoot(adj, window, o, r)
    ensures OnePerRoot(adj, window, o, r + 1, found) && ClaimedBefore(adj, window, o, r + 1, claimed)
  {
    forall id ensures ClaimedBy(adj, window, o, r + 1, id) <==> ClaimedBy(adj, window, o, r, id) {
      if ClaimedBy(adj, window, o, r, id) {
        var q: nat, j: nat :| q < r && IsRoot(adj, window, o, q) && Forward(adj, window, o, q, j) && o[j].id == id;
        assert q < r + 1;
      }
    }
  }

  /** An unclaimed candidate becomes a root cause with the symptoms it claims. */
  method Conclude(adj: Adjacency, window: int, o: seq<FabricEvent>, r: nat, found: seq<Hypothesis>, claimed: set<nat>)
    returns (more: seq<Hypothesis>, next: set<nat>)
    requires IdsAreDigests(o) && IsRoot(adj, window, o, r)
    requires OnePerRoot(adj, window, o, r, found) && ClaimedBefore(adj, window, o, r, claimed)
    ensures OnePerRoot(adj, window, o, r + 1, more) && ClaimedBefore(adj, window, o, r + 1, next)
  {
    var symptoms: seq<nat>;
    symptoms, next := ClaimSymptoms(adj, window, o, r, claimed);
    PassBuildsHypothesis(adj, window, o, claimed, r, symptoms);
    ClaimedNext(adj, window, o, r, claimed, next);
    more := found + [Hypothesis(r, symptoms, Confidence(o, r, symptoms))];
    ExtendedKeeps(adj, window, o, found, Hypothesis(r, symptoms, Confidence(o, r, symptoms)));
  }

  lemma ClaimedDecides(adj: Adjacency, window: int, o: seq<FabricEvent>, r: nat, claimed: set<nat>)
    requires IdsAreDigests(o) && r < |o| && ClaimedBefore(adj, window, o, r, claimed)
    ensures o[r].id in claimed <==> !IsRoot(adj, window, o, r)
  {
    ClaimedIsExplained(adj, window, o, r);
  }

  lemma NothingClaimed(adj: Adjacency, window: int, o: seq<FabricEvent>)
    ensures OnePerRoot(adj, window, o, 0, []) && ClaimedBefore(adj, window, o, 0, {})
  {
  }

  /** The outer loop over the sorted events. */
  method FindRoots(adj: Adjacency, window: int, o: seq<FabricEvent>) returns (found: seq<Hypothesis>)
    requires IdsAreDigests(o)
    ensures OnePerRoot(adj, window, o, |o|, found)
  {
    found := [];
    var claimed: set<nat> := {};
    NothingClaimed(adj, window, o);
    hide OnePerRoot, ClaimedBefore, IdsAreDigests;
    for r := 0 to |o|
      invariant OnePerRoot(adj, window, o, r, found)
      invariant ClaimedBefore(adj, window, o, r, claimed)
    {
      ClaimedDecides(adj, window, o, r, claimed);
      if o[r].id in claimed {
        SkippedKeeps(adj, window, o, r, found, claimed);
      } else {
        found, claimed := Conclude(adj, window, o, r, found, claimed);
      }
    }
  }

  // ------------------------------------------------------------------ analyze

  function Known(events: seq<FabricEvent>): seq<FabricEvent> {
    if events == [] then []
    else (if events[0].layer != UNKNOWN then [events[0]] else []) + Known(events[1..])
  }

  predicate Earlier(a: FabricEvent, b: FabricEvent) {
    a.time < b.time || (a.time == b.time && a.layer <= b.layer)
  }

  lemma {:induction false} KnownKeeps(events: seq<FabricEvent>)
    ensures forall e :: e in Known(events) <==> e in events && e.layer != UNKNOWN
  {
    if events != [] {
      KnownKeeps(events[1..]);
      assert events == [events[0]] + events[1..];
    }
  }

  /** The answer for the sorted events o: one hypothesis a root, best first. */
  ghost predicate IsAnalysis(adj: Adjacency, window: int, o: seq<FabricEvent>, hs: seq<Hypothesis>) {
    && (forall h :: h in hs ==> IsHypothesis(adj, window, o, h))
    && (forall i, j :: 0 <= i < j < |hs| ==> hs[i].root != hs[j].root && Ranked(hs[i], hs[j])
                                               && (Ranked(hs[j], hs[i]) ==> hs[i].root < hs[j].root))
    && (forall r: nat :: IsRoot(adj, window, o, r) ==> exists h :: h in hs && h.root == r)
  }

  lemma RankedInOrder(found: seq<Hypothesis>)
    requires forall i, j :: 0 <= i < j < |found| ==> found[i].root < found[j].root
    ensures var hs := StableSort(Ranked, found);
            forall i, j :: 0 <= i < j < |hs| ==>
              Ranked(hs[i], hs[j]) && (Ranked(hs[j], hs[i]) ==> hs[i].root < hs[j].root)
  {
    var hs := StableSort(Ranked, found);
    var byRoot := (a: Hypothesis, b: Hypothesis) => a.root <= b.root;
    StableSortStable(Ranked, byRoot, found);
    StableSortSorts(Ranked, found);
    OneHypothesisPerRoot(found, hs);
    assert LexSorted(Ranked, byRoot, hs);
  }

  lemma OneHypothesisPerRoot(found: seq<Hypothesis>, hs: seq<Hypothesis>)
    requires forall i, j :: 0 <= i < j < |found| ==> found[i].root < found[j].root
    requires multiset(found) == multiset(hs)
    ensures forall i, j :: 0 <= i < j < |hs| ==> hs[i].root != hs[j].root
  {
    SameElements(hs, found);
    assert Distinct(found);
    DistinctByMultiset(found, hs);
    forall i, j | 0 <= i < j < |hs| ensures hs[i].root != hs[j].root {
      assert hs[i] in found && hs[j] in found && hs[i] != hs[j];
    }
  }

  lemma RankedCovers(adj: Adjacency, window: int, o: seq<FabricEvent>, found: seq<Hypothesis>, hs: seq<Hypothesis>)
    requires OnePerRoot(adj, window, o, |o|, found) && forall h :: h in hs <==> h in found
    ensures forall h :: h in hs ==> IsHypothesis(adj, window, o, h)
    ensures forall r: nat :: IsRoot(adj, window, o, r) ==> exists h :: h in hs && h.root == r
  {
    forall r: nat | IsRoot(adj, window, o, r) ensures exists h :: h in hs && h.root == r {
      var i :| 0 <= i < |found| && found[i].root == r;
      assert found[i] in hs;
    }
  }

  lemma RankingKeeps(adj: Adjacency, window: int, o: seq<FabricEvent>, found: seq<Hypothesis>)
    requires OnePerRoot(adj, window, o, |o|, found)
    ensures IsAnalysis(adj, window, o, StableSort(Ranked, found))
  {
    var hs := StableSort(Ranked, found);
    StableSortSorts(Ranked, found);
    SameElements(hs, found);
    RankedCovers(adj, window, o, found, hs);
    RankedInOrder(found);
    OneHypothesisPerRoot(found, hs);
  }

  method Analyze(adj: Adjacency, window: int, events: seq<FabricEvent>)
    returns (o: seq<FabricEvent>, hs: seq<Hypothesis>)
    requires IdsAreDigests(events)
    ensures o == StableSort(Earlier, Known(events)) && IsOrdered(events, o)
    ensures IsAnalysis(adj, window, o, hs)
    ensures RootsUncaused(adj, window, o, hs) && SymptomsFollow(adj, window, o, hs) && OthersListed(o, hs)
    ensures BestFirst(hs) && forall h :: h in hs ==> Scored(o, h)
  {
    o := StableSort(Earlier, Known(events));
    OrderMeans(events);
    StableSortSorts(Earlier, Known(events));
    SameElements(o, Known(events));
    KnownKeeps(events);
    var found := FindRoots(adj, window, o);
    hs := StableSort(Ranked, found);
    RankingKeeps(adj, window, o, found);
    AnalysisMeans(adj, window, o, hs);
  }

  lemma AnalysisMeans(adj: Adjacency, window: int, o: seq<FabricEvent>, hs: seq<Hypothesis>)
    requires IsAnalysis(adj, window, o, hs) && IdsAreDigests(o)
    ensures RootsUncaused(adj, window, o, hs) && SymptomsFollow(adj, window, o, hs) && OthersListed(o, hs)
    ensures BestFirst(hs) && forall h :: h in hs ==> Scored(o, h)
  {
    hide *;
    RootsMean(adj, window, o, hs);
    SymptomsMean(adj, window, o, hs);
    OthersMean(adj, window, o, hs);
    ScoresMean(adj, window, o, hs);
  }

  // -------------------------------------------------------- what the answer means

  /** Every explained event has an earliest root. */
  lemma {:induction false} HasCause(adj: Adjacency, window: int, o: seq<FabricEvent>, r: nat, j: nat) returns (c: nat)
    requires IsRoot(adj, window, o, r) && Forward(adj, window, o, r, j)
    ensures c <= r && IsCause(adj, window, o, c, j)
  {
    if q: nat :| q < r && IsRoot(adj, window, o, q) && Forward(adj, window, o, q, j) {
      c := HasCause(adj, window, o, q, j);
    } else {
      c := r;
    }
  }

  /** The root causes reported are the kernel of the forward relation, and nothing else is. */
  lemma ReportedRootsAreTheKernel(adj: Adjacency, window: int, o: seq<FabricEvent>, hs: seq<Hypothesis>, k: set<nat>)
    requires IsAnalysis(adj, window, o, hs)
    ensures IsKernel(adj, window, o, k) <==> k == set h | h in hs :: h.root
  {
    var reported := set h | h in hs :: h.root;
    assert reported == Roots(adj, window, o);
    RootsAreKernel(adj, window, o);
    if IsKernel(adj, window, o, k) {
      KernelIsUnique(adj, window, o, k);
    }
  }

  /** An event is reported as a root or under exactly one hypothesis, that of the earliest root
      explaining it; a repeated line is listed once, at its first position. */
  lemma EveryEventIsPlaced(adj: Adjacency, window: int, o: seq<FabricEvent>, hs: seq<Hypothesis>, j: nat)
    requires IsAnalysis(adj, window, o, hs) && IdsAreDigests(o) && j < |o|
    requires !IsRoot(adj, window, o, j)
    ensures exists h :: h in hs && Mentioned(o, h.symptoms, j) && IsCause(adj, window, o, h.root, j)
    ensures forall g, h :: g in hs && h in hs && j in g.symptoms && j in h.symptoms ==> g == h
  {
    var r: nat :| r < j && IsRoot(adj, window, o, r) && Forward(adj, window, o, r, j);
    var c := HasCause(adj, window, o, r, j);
    var h :| h in hs && h.root == c;
    assert IsHypothesis(adj, window, o, h);
    forall g, h | g in hs && h in hs && j in g.symptoms && j in h.symptoms ensures g == h {
      OnePlace(adj, window, o, hs, g, h, j);
    }
  }

  lemma OnePlace(adj: Adjacency, window: int, o: seq<FabricEvent>, hs: seq<Hypothesis>, g: Hypothesis, h: Hypothesis,
                 j: nat)
    requires IsAnalysis(adj, window, o, hs) && g in hs && h in hs && j in g.symptoms && j in h.symptoms
    ensures g == h
  {
    hide Confidence, Ascending, NoRepeats, InRange, Mentioned, Ranked;
    assert IsHypothesis(adj, window, o, g) && IsHypothesis(adj, window, o, h);
    assert IsCause(adj, window, o, g.root, j) && IsCause(adj, window, o, h.root, j);
    assert g.root == h.root;
    var a :| 0 <= a < |hs| && hs[a] == g;
    var b :| 0 <= b < |hs| && hs[b] == h;
    assert a == b;
  }

  // ------------------------------------------ what a root and its symptoms have in common

  /** The two devices share a link. */
  predicate LinkBetween(adj: Adjacency, a: nat, b: nat) {
    a in adj && b in adj[a]
  }

  predicate TwoHops(adj: Adjacency, a: nat, b: nat) {
    exists via :: a in adj && via in adj[a] && LinkBetween(adj, via, b)
  }

  /** a may be the fault behind b: no later and within the window, in a lower layer, or in the same
      layer of a linked device within five seconds; on the same or a linked device or, for a tunnel
      or overlay event, two hops away. */
  predicate MayCause(adj: Adjacency, window: int, a: FabricEvent, b: FabricEvent) {
    && a.time <= b.time <= a.time + window
    && (a.layer < b.layer
        || (a.layer == b.layer && LinkBetween(adj, a.device, b.device) && b.time <= a.time + 5_000_000))
    && (a.device == b.device || LinkBetween(adj, a.device, b.device)
        || (b.layer >= 4 && TwoHops(adj, a.device, b.device)))
  }

  lemma ExplainsMeans(adj: Adjacency, window: int, a: FabricEvent, b: FabricEvent)
    ensures Explains(adj, window, a, b) <==> MayCause(adj, window, a, b)
  {
  }

  /** The known events by time and, within an instant, from the lowest layer up. */
  ghost predicate IsOrdered(events: seq<FabricEvent>, o: seq<FabricEvent>) {
    && (forall i, j :: 0 <= i < j < |o| ==>
          o[i].time < o[j].time || (o[i].time == o[j].time && o[i].layer <= o[j].layer))
    && forall e :: multiset(o)[e] == if e.layer == 99 then 0 else multiset(events)[e]
  }

  ghost predicate RootAt(hs: seq<Hypothesis>, r: nat) {
    exists h :: h in hs && h.root == r
  }

  /** Symptoms follow their root, which may cause them; no reported root before it may. */
  ghost predicate SymptomsFollow(adj: Adjacency, window: int, o: seq<FabricEvent>, hs: seq<Hypothesis>) {
    forall h, j :: h in hs && j in h.symptoms ==>
      && h.root < j < |o| && MayCause(adj, window, o[h.root], o[j])
      && forall r: nat :: r < h.root && RootAt(hs, r) ==> !MayCause(adj, window, o[r], o[j])
  }

  /** Reported as a root is exactly what no earlier root may cause. */
  ghost predicate RootsUncaused(adj: Adjacency, window: int, o: seq<FabricEvent>, hs: seq<Hypothesis>) {
    forall j: nat :: j < |o| ==>
      (RootAt(hs, j) <==> forall r: nat :: r < j && RootAt(hs, r) ==> !MayCause(adj, window, o[r], o[j]))
  }

  /** Every other event, or an earlier line with its id, is a symptom of some root. */
  ghost predicate OthersListed(o: seq<FabricEvent>, hs: seq<Hypothesis>) {
    forall j: nat :: j < |o| && !RootAt(hs, j) ==>
      exists h, x: nat :: h in hs && x in h.symptoms && x <= j && o[x].id == o[j].id
  }

  /** In hundredths: 65 for a physical fault and 55 for any other, eight more for each symptom up to
      thirty, five more for a tunnel or overlay symptom, and at most 99. */
  ghost predicate Scored(o: seq<FabricEvent>, h: Hypothesis) {
    && h.root < |o| && InRange(o, h.symptoms)
    && var overlay := exists j :: j in h.symptoms && o[j].layer >= 4;
       var few := |h.symptoms| <= 3;
       h.confidence ==
         if o[h.root].layer == 1
         then (if few then 65 + 8 * |h.symptoms| + (if overlay then 5 else 0) else if overlay then 99 else 95)
         else (if few then 55 + 8 * |h.symptoms| + (if overlay then 5 else 0) else if overlay then 90 else 85)
  }

  /** Most confident first, then most symptoms, then the earlier root. */
  ghost predicate BestFirst(hs: seq<Hypothesis>) {
    forall i, j :: 0 <= i < j < |hs| ==>
      || hs[i].confidence > hs[j].confidence
      || (hs[i].confidence == hs[j].confidence
          && (|hs[i].symptoms| > |hs[j].symptoms|
              || (|hs[i].symptoms| == |hs[j].symptoms| && hs[i].root < hs[j].root)))
  }

  lemma RootAtIff(adj: Adjacency, window: int, o: seq<FabricEvent>, hs: seq<Hypothesis>, r: nat)
    requires IsAnalysis(adj, window, o, hs)
    ensures RootAt(hs, r) <==> IsRoot(adj, window, o, r)
  {
    if h :| h in hs && h.root == r { assert IsHypothesis(adj, window, o, h); }
  }

  lemma SymptomsMean(adj: Adjacency, window: int, o: seq<FabricEvent>, hs: seq<Hypothesis>)
    requires IsAnalysis(adj, window, o, hs)
    ensures SymptomsFollow(adj, window, o, hs)
  {
    forall h, j | h in hs && j in h.symptoms
      ensures h.root < j < |o| && MayCause(adj, window, o[h.root], o[j])
              && forall r: nat :: r < h.root && RootAt(hs, r) ==> !MayCause(adj, window, o[r], o[j])
    {
      assert IsHypothesis(adj, window, o, h) && IsCause(adj, window, o, h.root, j);
      ExplainsMeans(adj, window, o[h.root], o[j]);
      forall r: nat | r < h.root && RootAt(hs, r) ensures !MayCause(adj, window, o[r], o[j]) {
        RootAtIff(adj, window, o, hs, r);
        ExplainsMeans(adj, window, o[r], o[j]);
        assert !Forward(adj, window, o, r, j);
      }
    }
  }

  lemma RootsMean(adj: Adjacency, window: int, o: seq<FabricEvent>, hs: seq<Hypothesis>)
    requires IsAnalysis(adj, window, o, hs)
    ensures RootsUncaused(adj, window, o, hs)
  {
    hide IsAnalysis, RootAt, Explains, MayCause;
    forall j: nat | j < |o|
      ensures RootAt(hs, j) <==> forall r: nat :: r < j && RootAt(hs, r) ==> !MayCause(adj, window, o[r], o[j])
    {
      RootAtIff(adj, window, o, hs, j);
      forall r: nat | r < j ensures RootAt(hs, r) <==> IsRoot(adj, window, o, r) {
        RootAtIff(adj, window, o, hs, r);
      }
      forall r: nat | r < j ensures Forward(adj, window, o, r, j) <==> MayCause(adj, window, o[r], o[j]) {
        ExplainsMeans(adj, window, o[r], o[j]);
      }
    }
  }

  lemma OthersMean(adj: Adjacency, window: int, o: seq<FabricEvent>, hs: seq<Hypothesis>)
    requires IsAnalysis(adj, window, o, hs) && IdsAreDigests(o)
    ensures OthersListed(o, hs)
  {
    hide IsAnalysis, RootAt, IsCause, IdsAreDigests, Forward;
    forall j: nat | j < |o| && !RootAt(hs, j)
      ensures exists h, x: nat :: h in hs && x in h.symptoms && x <= j && o[x].id == o[j].id
    {
      RootAtIff(adj, window, o, hs, j);
      EveryEventIsPlaced(adj, window, o, hs, j);
    }
  }

  lemma ScoresMean(adj: Adjacency, window: int, o: seq<FabricEvent>, hs: seq<Hypothesis>)
    requires IsAnalysis(adj, window, o, hs)
    ensures BestFirst(hs) && forall h :: h in hs ==> Scored(o, h)
  {
    forall h | h in hs ensures Scored(o, h) { assert IsHypothesis(adj, window, o, h); }
  }

  lemma {:induction false} KnownCounts(events: seq<FabricEvent>, e: FabricEvent)
    ensures multiset(Known(events))[e] == if e.layer == 99 then 0 else multiset(events)[e]
  {
    if events != [] {
      KnownCounts(events[1..], e);
      assert events == [events[0]] + events[1..];
    }
  }

  lemma OrderMeans(events: seq<FabricEvent>)
    ensures IsOrdered(events, StableSort(Earlier, Known(events)))
  {
    StableSortSorts(Earlier, Known(events));
    forall e { KnownCounts(events, e); }
  }
}
