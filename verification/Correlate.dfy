/** Clustering of failure events by joins of sorted chains (correlate.py). */
module Correlate {
  import opened Options
  import opened Paths
  import opened Ordering
  import opened UnionFind

  /** What clustering reads of an event; `content` ranks the arrival-independent tiebreak. */
  datatype Event = Event(time: Option<int>, layer: nat, content: int, host: nat, keys: seq<nat>)

  /** Time limits, in microseconds like the instants. */
  datatype Limits = Limits(window: int, sameDevice: int, hold: int)

  const SAME_INSTANT: int := 1_000_000
  const TRANSPORT: nat := 2
  const ROUTING: nat := 3

  // -------------------------------------------------------------- join conditions

  function Abs(x: int): int {
    if x < 0 then -x else x
  }

  predicate Close(a: Event, b: Event, limit: int) {
    match (a.time, b.time)
    case (Some(ta), Some(tb)) => Abs(tb - ta) <= limit
    case (None, None) => true
    case _ => false
  }

  /** a comes no later than b: untimed last, then time, layer and content */
  predicate KeyLe(a: Event, b: Event) {
    if a.time.Some? != b.time.Some? then a.time.Some?
    else if a.time.Some? && a.time.value != b.time.value then a.time.value < b.time.value
    else if a.layer != b.layer then a.layer < b.layer
    else a.content <= b.content
  }

  predicate Tied(a: Event, b: Event) {
    KeyLe(a, b) && KeyLe(b, a)
  }

  predicate Simultaneous(a: Event, b: Event) {
    a.time.Some? && b.time.Some? && Abs(b.time.value - a.time.value) <= SAME_INSTANT
  }

  /** The same-device test on two chain neighbours. */
  predicate HostOk(a: Event, b: Event, p: Limits) {
    && (Simultaneous(a, b) || a.layer <= b.layer)
    && Close(a, b, if a.layer == TRANSPORT && b.layer == ROUTING then p.hold else p.sameDevice)
  }

  // --------------------------------------------------------------------- chains

  datatype Slot = Slot(id: nat, ev: Event)

  const BY_KEY: (Slot, Slot) -> bool := (a: Slot, b: Slot) => KeyLe(a.ev, b.ev)

  lemma KeyOrderTotal()
    ensures Total(BY_KEY)
  {
  }

  function Repeated(keys: seq<nat>, key: nat, slot: Slot): seq<Slot> {
    if keys == [] then [] else (if keys[0] == key then [slot] else []) + Repeated(keys[1..], key, slot)
  }

  /** `by_key[key]` after the first n events: an id per occurrence of the key. */
  function KeyMembers(events: seq<Event>, key: nat, n: nat): seq<Slot>
    requires n <= |events|
  {
    if n == 0 then []
    else KeyMembers(events, key, n - 1) + Repeated(events[n - 1].keys, key, Slot(n - 1, events[n - 1]))
  }

  /** `by_host[host]` after the first n events */
  function HostMembers(events: seq<Event>, host: nat, n: nat): seq<Slot>
    requires n <= |events|
  {
    if n == 0 then []
    else HostMembers(events, host, n - 1) + if events[n - 1].host == host then [Slot(n - 1, events[n - 1])] else []
  }

  function KeyChain(events: seq<Event>, key: nat): seq<Slot> {
    StableSort(BY_KEY, KeyMembers(events, key, |events|))
  }

  function HostChain(events: seq<Event>, host: nat): seq<Slot> {
    StableSort(BY_KEY, HostMembers(events, host, |events|))
  }

  ghost predicate IsSlot(events: seq<Event>, x: Slot) {
    x.id < |events| && x.ev == events[x.id]
  }

  lemma {:induction false} RepeatedIff(keys: seq<nat>, key: nat, slot: Slot, x: Slot)
    ensures x in Repeated(keys, key, slot) <==> x == slot && key in keys
  {
    if keys != [] { RepeatedIff(keys[1..], key, slot, x); }
  }

  lemma {:induction false} KeyMemberIff(events: seq<Event>, key: nat, n: nat, x: Slot)
    requires n <= |events|
    ensures x in KeyMembers(events, key, n) <==> x.id < n && IsSlot(events, x) && key in x.ev.keys
  {
    if n > 0 {
      KeyMemberIff(events, key, n - 1, x);
      RepeatedIff(events[n - 1].keys, key, Slot(n - 1, events[n - 1]), x);
    }
  }

  lemma {:induction false} HostMemberIff(events: seq<Event>, host: nat, n: nat, x: Slot)
    requires n <= |events|
    ensures x in HostMembers(events, host, n) <==> x.id < n && IsSlot(events, x) && x.ev.host == host
  {
    if n > 0 { HostMemberIff(events, host, n - 1, x); }
  }

  lemma KeyChainFacts(events: seq<Event>, key: nat)
    ensures SortedBy(BY_KEY, KeyChain(events, key))
    ensures forall x :: x in KeyChain(events, key) <==> IsSlot(events, x) && key in x.ev.keys
  {
    KeyOrderTotal();
    StableSortSorts(BY_KEY, KeyMembers(events, key, |events|));
    SameElements(KeyChain(events, key), KeyMembers(events, key, |events|));
    forall x { KeyMemberIff(events, key, |events|, x); }
  }

  lemma HostChainFacts(events: seq<Event>, host: nat)
    ensures SortedBy(BY_KEY, HostChain(events, host))
    ensures forall x :: x in HostChain(events, host) <==> IsSlot(events, x) && x.ev.host == host
  {
    KeyOrderTotal();
    StableSortSorts(BY_KEY, HostMembers(events, host, |events|));
    SameElements(HostChain(events, host), HostMembers(events, host, |events|));
    forall x { HostMemberIff(events, host, |events|, x); }
  }

  // ------------------------------------------------------------------- the joins

  function Hop(o: seq<Slot>, m: nat): (nat, nat)
    requires m + 1 < |o|
  {
    (o[m].id, o[m + 1].id)
  }

  predicate KeyJoined(o: seq<Slot>, window: int, m: nat) {
    m + 1 < |o| && Close(o[m].ev, o[m + 1].ev, window)
  }

  predicate HostJoined(o: seq<Slot>, p: Limits, m: nat) {
    m + 1 < |o| && HostOk(o[m].ev, o[m + 1].ev, p)
  }

  ghost function KeyHops(o: seq<Slot>, window: int, n: nat): Edges {
    set m: nat | m < n && KeyJoined(o, window, m) :: Hop(o, m)
  }

  ghost function HostHops(o: seq<Slot>, p: Limits, n: nat): Edges {
    set m: nat | m < n && HostJoined(o, p, m) :: Hop(o, m)
  }

  /** The neighbours of one key chain that are joined. */
  ghost function KeyEdges(events: seq<Event>, window: int, key: nat): Edges {
    var o := KeyChain(events, key);
    KeyHops(o, window, |o|)
  }

  ghost function HostEdges(events: seq<Event>, p: Limits, host: nat): Edges {
    var o := HostChain(events, host);
    HostHops(o, p, |o|)
  }

  function AllKeys(events: seq<Event>): set<nat> {
    set i, k | 0 <= i < |events| && k in events[i].keys :: k
  }

  function AllHosts(events: seq<Event>): set<nat> {
    set i | 0 <= i < |events| :: events[i].host
  }

  ghost function EntityJoins(events: seq<Event>, window: int, keys: set<nat>): Edges {
    set k, e | k in keys && e in KeyEdges(events, window, k) :: e
  }

  ghost function HostJoins(events: seq<Event>, p: Limits, hosts: set<nat>): Edges {
    set h, e | h in hosts && e in HostEdges(events, p, h) :: e
  }

  /** Entity-only joins: what the second forest sees. */
  ghost function EntityEdges(events: seq<Event>, p: Limits): Edges {
    EntityJoins(events, p.window, AllKeys(events))
  }

  /** All joins: what the first forest sees. */
  ghost function JoinEdges(events: seq<Event>, p: Limits): Edges {
    EntityEdges(events, p) + HostJoins(events, p, AllHosts(events))
  }

  ghost predicate SameCluster(events: seq<Event>, p: Limits, i: nat, j: nat) {
    Linked(JoinEdges(events, p), i, j)
  }

  // ------------------------------------------- entity joins mean the all-pairs relation

  predicate ShareKey(a: Event, b: Event) {
    exists k :: k in a.keys && k in b.keys
  }

  /** Events i and j share a join key and are within the window, or are both untimed. */
  predicate Related(events: seq<Event>, window: int, i: nat, j: nat) {
    i < |events| && j < |events| && ShareKey(events[i], events[j]) && Close(events[i], events[j], window)
  }

  ghost function AllPairs(events: seq<Event>, window: int): Edges {
    set i: nat, j: nat | i < |events| && j < |events| && Related(events, window, i, j) :: (i, j)
  }

  lemma CloseInside(a: Event, m: Event, b: Event, limit: int)
    requires KeyLe(a, m) && KeyLe(m, b) && Close(a, b, limit)
    ensures Close(a, m, limit) && Close(m, b, limit)
  {
  }

  ghost predicate HopLinked(o: seq<Slot>, e: Edges, m: nat) {
    m + 1 < |o| ==> Linked(e, o[m].id, o[m + 1].id)
  }

  lemma {:induction false} HopsLink(o: seq<Slot>, e: Edges, a: nat, b: nat)
    requires a <= b < |o| && forall m :: a <= m < b ==> HopLinked(o, e, m)
    ensures Linked(e, o[a].id, o[b].id)
    decreases b - a
  {
    LinkedRefl(e, o[a].id);
    if a < b {
      HopsLink(o, e, a, b - 1);
      assert HopLinked(o, e, b - 1);
      LinkedTrans(e, o[a].id, o[b - 1].id, o[b].id);
    }
  }

  lemma KeyChainLinks(events: seq<Event>, window: int, key: nat, a: nat, b: nat)
    requires a <= b < |KeyChain(events, key)|
    requires var o := KeyChain(events, key); Close(o[a].ev, o[b].ev, window)
    ensures var o := KeyChain(events, key); Linked(KeyEdges(events, window, key), o[a].id, o[b].id)
  {
    var o, e := KeyChain(events, key), KeyEdges(events, window, key);
    KeyChainFacts(events, key);
    forall m | a <= m < b ensures HopLinked(o, e, m) {
      NeighboursClose(o, window, a, m, b);
      assert Hop(o, m) in e;
      LinkedEdge(e, o[m].id, o[m + 1].id);
    }
    HopsLink(o, e, a, b);
  }

  lemma NeighboursClose(o: seq<Slot>, window: int, a: nat, m: nat, b: nat)
    requires SortedBy(BY_KEY, o) && a <= m < b < |o| && Close(o[a].ev, o[b].ev, window)
    ensures KeyJoined(o, window, m)
  {
    KeyLeSelf(o[a].ev);
    KeyLeSelf(o[b].ev);
    assert a < m ==> BY_KEY(o[a], o[m]);
    assert BY_KEY(o[m], o[m + 1]) && BY_KEY(o[m], o[b]);
    assert m + 1 < b ==> BY_KEY(o[m + 1], o[b]);
    CloseInside(o[a].ev, o[m].ev, o[b].ev, window);
    CloseInside(o[m].ev, o[m + 1].ev, o[b].ev, window);
  }

  lemma KeyLeSelf(a: Event)
    ensures KeyLe(a, a)
  {
  }

  lemma RelatedIsLinked(events: seq<Event>, p: Limits, i: nat, j: nat)
    requires Related(events, p.window, i, j)
    ensures Linked(EntityEdges(events, p), i, j)
  {
    var k :| k in events[i].keys && k in events[j].keys;
    KeyChainFacts(events, k);
    var o := KeyChain(events, k);
    assert Slot(i, events[i]) in o && Slot(j, events[j]) in o;
    var a: nat :| a < |o| && o[a] == Slot(i, events[i]);
    var b: nat :| b < |o| && o[b] == Slot(j, events[j]);
    if a <= b {
      KeyChainLinks(events, p.window, k, a, b);
    } else {
      KeyChainLinks(events, p.window, k, b, a);
      LinkedSym(KeyEdges(events, p.window, k), j, i);
    }
    assert KeyEdges(events, p.window, k) <= EntityEdges(events, p);
    LinkedMono(KeyEdges(events, p.window, k), EntityEdges(events, p), i, j);
  }

  lemma EntityEdgeIsRelated(events: seq<Event>, p: Limits, i: nat, j: nat)
    requires (i, j) in EntityEdges(events, p)
    ensures Related(events, p.window, i, j)
  {
    var k :| k in AllKeys(events) && (i, j) in KeyEdges(events, p.window, k);
    KeyChainFacts(events, k);
    var o := KeyChain(events, k);
    var m: nat :| m < |o| && KeyJoined(o, p.window, m) && Hop(o, m) == (i, j);
    assert o[m] in o && o[m + 1] in o;
  }

  /** Joining only neighbours of the sorted key chains gives the components of the
      all-pairs relation. */
  lemma EntityComponents(events: seq<Event>, p: Limits, i: nat, j: nat)
    ensures Linked(EntityEdges(events, p), i, j) <==> Linked(AllPairs(events, p.window), i, j)
  {
    forall x: nat, y: nat | (x, y) in EntityEdges(events, p) ensures Linked(AllPairs(events, p.window), x, y) {
      EntityEdgeIsRelated(events, p, x, y);
      LinkedEdge(AllPairs(events, p.window), x, y);
    }
    forall x: nat, y: nat | (x, y) in AllPairs(events, p.window) ensures Linked(EntityEdges(events, p), x, y) {
      RelatedIsLinked(events, p, x, y);
    }
    if Linked(EntityEdges(events, p), i, j) {
      LinkedRefine(EntityEdges(events, p), AllPairs(events, p.window), i, j);
    }
    if Linked(AllPairs(events, p.window), i, j) {
      LinkedRefine(AllPairs(events, p.window), EntityEdges(events, p), i, j);
    }
  }

  /** The full forest only ever merges entity components. */
  lemma ClustersCoarsen(events: seq<Event>, p: Limits, i: nat, j: nat)
    requires Linked(EntityEdges(events, p), i, j)
    ensures SameCluster(events, p, i, j)
  {
    LinkedMono(EntityEdges(events, p), JoinEdges(events, p), i, j);
  }

  // ------------------------------------------------ clusters do not depend on order

  /** Same-device joins without a chain: nothing on the device lies strictly between. */
  ghost predicate Adjacent(events: seq<Event>, p: Limits, i: nat, j: nat) {
    && i < |events| && j < |events| && events[i].host == events[j].host
    && KeyLe(events[i], events[j]) && HostOk(events[i], events[j], p)
    && forall k :: 0 <= k < |events| && events[k].host == events[i].host ==>
         KeyLe(events[k], events[i]) || KeyLe(events[j], events[k])
  }

  ghost function FreeEdges(events: seq<Event>, p: Limits): Edges {
    AllPairs(events, p.window)
    + set i: nat, j: nat | i < |events| && j < |events| && Adjacent(events, p, i, j) :: (i, j)
  }

  /** The limits under which simultaneous events of one layer always join each other,
      or no timed events of one device ever join by timing. */
  predicate OrderFree(p: Limits) {
    p.sameDevice >= 0 || p.hold < 0
  }

  lemma HostEdgeIsAdjacent(events: seq<Event>, p: Limits, host: nat, i: nat, j: nat)
    requires (i, j) in HostEdges(events, p, host)
    ensures Adjacent(events, p, i, j)
  {
    HostChainFacts(events, host);
    var o := HostChain(events, host);
    var m: nat :| m < |o| && HostJoined(o, p, m) && Hop(o, m) == (i, j);
    assert o[m] in o && o[m + 1] in o && BY_KEY(o[m], o[m + 1]);
    forall k | 0 <= k < |events| && events[k].host == host
      ensures KeyLe(events[k], events[i]) || KeyLe(events[j], events[k])
    {
      assert Slot(k, events[k]) in o;
      var q :| 0 <= q < |o| && o[q] == Slot(k, events[k]);
      KeyLeSelf(events[k]);
      assert q < m ==> BY_KEY(o[q], o[m]);
      assert q > m + 1 ==> BY_KEY(o[m + 1], o[q]);
    }
  }

  /** Under order-free limits events tied with either end of a joined pair join as well. */
  lemma TiesJoin(p: Limits, i: Event, j: Event, a: Event, b: Event)
    requires OrderFree(p) && HostOk(i, j, p)
    requires (Tied(a, i) && Tied(b, j)) || (Tied(a, i) && Tied(b, i)) || (Tied(a, j) && Tied(b, j))
    ensures HostOk(a, b, p)
  {
  }

  lemma BetweenIsTied(events: seq<Event>, p: Limits, i: nat, j: nat, k: nat)
    requires Adjacent(events, p, i, j) && k < |events| && events[k].host == events[i].host
    requires KeyLe(events[i], events[k]) && KeyLe(events[k], events[j])
    ensures Tied(events[k], events[i]) || Tied(events[k], events[j])
  {
  }

  lemma AdjacentHopJoins(events: seq<Event>, p: Limits, i: nat, j: nat, a: nat, m: nat, b: nat)
    requires OrderFree(p) && Adjacent(events, p, i, j)
    requires var o := HostChain(events, events[i].host);
             a <= m < b < |o| && o[a] == Slot(i, events[i]) && o[b] == Slot(j, events[j])
    ensures HostJoined(HostChain(events, events[i].host), p, m)
  {
    var o := HostChain(events, events[i].host);
    HostChainFacts(events, events[i].host);
    KeyLeSelf(events[i]);
    KeyLeSelf(events[j]);
    assert o[m] in o && o[m + 1] in o;
    assert a < m ==> BY_KEY(o[a], o[m]);
    assert m + 1 < b ==> BY_KEY(o[m + 1], o[b]);
    assert BY_KEY(o[m], o[m + 1]) && BY_KEY(o[a], o[m + 1]) && BY_KEY(o[m], o[b]);
    BetweenIsTied(events, p, i, j, o[m].id);
    BetweenIsTied(events, p, i, j, o[m + 1].id);
    var x, y := o[m].ev, o[m + 1].ev;
    TiesJoin(p, events[i], events[j], x, y);
  }

  lemma AdjacentIsLinked(events: seq<Event>, p: Limits, i: nat, j: nat)
    requires OrderFree(p) && Adjacent(events, p, i, j)
    ensures SameCluster(events, p, i, j)
  {
    var host := events[i].host;
    HostChainFacts(events, host);
    var o, e := HostChain(events, host), HostEdges(events, p, host);
    assert Slot(i, events[i]) in o && Slot(j, events[j]) in o;
    var a: nat :| a < |o| && o[a] == Slot(i, events[i]);
    var b: nat :| b < |o| && o[b] == Slot(j, events[j]);
    if a <= b {
      LinkHostRange(events, p, i, j, a, b);
    } else {
      assert BY_KEY(o[b], o[a]);
      assert Adjacent(events, p, j, i) by {
        TiesJoin(p, events[i], events[j], events[j], events[i]);
        TiedNoneBetween(events, p, i, j);
      }
      LinkHostRange(events, p, j, i, b, a);
      LinkedSym(e, j, i);
    }
    assert host in AllHosts(events);
    assert e <= JoinEdges(events, p);
    LinkedMono(e, JoinEdges(events, p), i, j);
  }

  lemma TiedNoneBetween(events: seq<Event>, p: Limits, i: nat, j: nat)
    requires Adjacent(events, p, i, j) && Tied(events[i], events[j])
    ensures forall k :: 0 <= k < |events| && events[k].host == events[j].host ==>
              KeyLe(events[k], events[j]) || KeyLe(events[i], events[k])
  {
  }

  lemma LinkHostRange(events: seq<Event>, p: Limits, i: nat, j: nat, a: nat, b: nat)
    requires OrderFree(p) && Adjacent(events, p, i, j)
    requires var o := HostChain(events, events[i].host);
             a <= b < |o| && o[a] == Slot(i, events[i]) && o[b] == Slot(j, events[j])
    ensures Linked(HostEdges(events, p, events[i].host), i, j)
  {
    var o, e := HostChain(events, events[i].host), HostEdges(events, p, events[i].host);
    forall m | a <= m < b ensures HopLinked(o, e, m) {
      AdjacentHopJoins(events, p, i, j, a, m, b);
      assert Hop(o, m) in e;
      LinkedEdge(e, o[m].id, o[m + 1].id);
    }
    HopsLink(o, e, a, b);
  }

  lemma JoinsAreFree(events: seq<Event>, p: Limits, i: nat, j: nat)
    requires SameCluster(events, p, i, j)
    ensures Linked(FreeEdges(events, p), i, j)
  {
    var f := FreeEdges(events, p);
    forall x: nat, y: nat | (x, y) in JoinEdges(events, p) ensures Linked(f, x, y) {
      if (x, y) in EntityEdges(events, p) {
        EntityEdgeIsRelated(events, p, x, y);
      } else {
        var h :| h in AllHosts(events) && (x, y) in HostEdges(events, p, h);
        HostEdgeIsAdjacent(events, p, h, x, y);
      }
      LinkedEdge(f, x, y);
    }
    LinkedRefine(JoinEdges(events, p), f, i, j);
  }

  lemma FreeAreJoins(events: seq<Event>, p: Limits, i: nat, j: nat)
    requires OrderFree(p) && Linked(FreeEdges(events, p), i, j)
    ensures SameCluster(events, p, i, j)
  {
    forall x: nat, y: nat | (x, y) in FreeEdges(events, p) ensures SameCluster(events, p, x, y) {
      if Related(events, p.window, x, y) {
        RelatedIsLinked(events, p, x, y);
        ClustersCoarsen(events, p, x, y);
      } else {
        AdjacentIsLinked(events, p, x, y);
      }
    }
    LinkedRefine(FreeEdges(events, p), JoinEdges(events, p), i, j);
  }

  /** inv undoes the reordering perm */
  ghost predicate Reordering(perm: seq<nat>, inv: seq<nat>) {
    && |perm| == |inv|
    && (forall k :: 0 <= k < |perm| ==> perm[k] < |perm| && inv[perm[k]] == k)
    && (forall k :: 0 <= k < |perm| ==> inv[k] < |perm| && perm[inv[k]] == k)
  }

  ghost function Reordered(events: seq<Event>, perm: seq<nat>): seq<Event>
    requires |perm| == |events| && forall k :: 0 <= k < |perm| ==> perm[k] < |events|
  {
    seq(|perm|, k requires 0 <= k < |perm| => events[perm[k]])
  }

  lemma FreeEdgeMoves(events: seq<Event>, p: Limits, perm: seq<nat>, inv: seq<nat>, x: nat, y: nat)
    requires Reordering(perm, inv) && |perm| == |events|
    requires (x, y) in FreeEdges(Reordered(events, perm), p)
    ensures x < |perm| && y < |perm| && (perm[x], perm[y]) in FreeEdges(events, p)
  {
    var moved := Reordered(events, perm);
    if !Related(moved, p.window, x, y) {
      forall k | 0 <= k < |events| && events[k].host == moved[x].host
        ensures KeyLe(events[k], moved[x]) || KeyLe(moved[y], events[k])
      {
        assert moved[inv[k]] == events[k];
      }
      assert Adjacent(events, p, perm[x], perm[y]);
    } else {
      assert Related(events, p.window, perm[x], perm[y]);
    }
  }

  lemma ReorderKeepsLinks(events: seq<Event>, p: Limits, perm: seq<nat>, inv: seq<nat>, i: nat, j: nat)
    requires OrderFree(p) && Reordering(perm, inv) && |perm| == |events| && i < |events| && j < |events|
    requires SameCluster(Reordered(events, perm), p, i, j)
    ensures SameCluster(events, p, perm[i], perm[j])
  {
    var moved := Reordered(events, perm);
    JoinsAreFree(moved, p, i, j);
    forall x: nat, y: nat | (x, y) in FreeEdges(moved, p)
      ensures x < |perm| && y < |perm| && Linked(FreeEdges(events, p), perm[x], perm[y])
    {
      FreeEdgeMoves(events, p, perm, inv, x, y);
      LinkedEdge(FreeEdges(events, p), perm[x], perm[y]);
    }
    LinkedRename(FreeEdges(moved, p), FreeEdges(events, p), perm, i, j);
    FreeAreJoins(events, p, perm[i], perm[j]);
  }

  /** Feeding the events in another order gives the same partition. */
  lemma ClustersKeepUnderReordering(events: seq<Event>, p: Limits, perm: seq<nat>, inv: seq<nat>, i: nat, j: nat)
    requires OrderFree(p) && Reordering(perm, inv) && |perm| == |events| && i < |events| && j < |events|
    ensures SameCluster(Reordered(events, perm), p, i, j) <==> SameCluster(events, p, perm[i], perm[j])
  {
    var moved := Reordered(events, perm);
    if SameCluster(moved, p, i, j) {
      ReorderKeepsLinks(events, p, perm, inv, i, j);
    }
    if SameCluster(events, p, perm[i], perm[j]) {
      assert Reordered(moved, inv) == events;
      ReorderKeepsLinks(moved, p, inv, perm, perm[i], perm[j]);
    }
  }

  /** The partition never depends on the arrival order, under these limits. */
  ghost predicate ArrivalIndependent(p: Limits) {
    forall events: seq<Event>, perm: seq<nat>, inv: seq<nat>, i: nat, j: nat ::
      Reordering(perm, inv) && |perm| == |events| && i < |events| && j < |events| ==>
        (SameCluster(Reordered(events, perm), p, i, j) <==> SameCluster(events, p, perm[i], perm[j]))
  }

  /** A tunnel and two tied routing events on one device: only the first of the two joins. */
  const TUNNEL := Event(Some(0), TRANSPORT, 0, 0, [])
  const ONE := Event(Some(0), ROUTING, 0, 0, [1])
  const OTHER := Event(Some(0), ROUTING, 0, 0, [2])

  lemma TiedChain(a: Event, b: Event)
    requires (a == ONE && b == OTHER) || (a == OTHER && b == ONE)
    ensures HostChain([TUNNEL, a, b], 0) == [Slot(0, TUNNEL), Slot(1, a), Slot(2, b)]
  {
    var events := [TUNNEL, a, b];
    var members := HostMembers(events, 0, 3);
    assert HostMembers(events, 0, 0) == [];
    assert HostMembers(events, 0, 1) == [Slot(0, TUNNEL)];
    assert HostMembers(events, 0, 2) == [Slot(0, TUNNEL), Slot(1, a)];
    assert members == [Slot(0, TUNNEL), Slot(1, a), Slot(2, b)];
    assert members[1..] == [Slot(1, a), Slot(2, b)];
    assert members[1..][1..] == [Slot(2, b)] && members[1..][1..][1..] == [];
    assert StableSort(BY_KEY, members[1..][1..]) == [Slot(2, b)];
    assert StableSort(BY_KEY, members[1..]) == [Slot(1, a), Slot(2, b)];
  }

  lemma TiedEdges(p: Limits, a: Event, b: Event, u: nat, v: nat)
    requires !OrderFree(p) && ((a == ONE && b == OTHER) || (a == OTHER && b == ONE))
    requires (u, v) in JoinEdges([TUNNEL, a, b], p)
    ensures u == v || (u == 0 && v == 1)
  {
    var events := [TUNNEL, a, b];
    if (u, v) in EntityEdges(events, p) {
      hide EntityEdges, HostJoins, Close;
      EntityEdgeIsRelated(events, p, u, v);
    } else {
      hide EntityEdges, HostEdges;
      var h :| h in AllHosts(events) && (u, v) in HostEdges(events, p, h);
      assert h == 0;
      TiedHostEdges(p, a, b, u, v);
    }
  }

  lemma TiedHostEdges(p: Limits, a: Event, b: Event, u: nat, v: nat)
    requires !OrderFree(p) && ((a == ONE && b == OTHER) || (a == OTHER && b == ONE))
    requires (u, v) in HostEdges([TUNNEL, a, b], p, 0)
    ensures u == 0 && v == 1
  {
    hide HostChain;
    TiedChain(a, b);
    var o := HostChain([TUNNEL, a, b], 0);
    var m: nat :| m < |o| && HostJoined(o, p, m) && Hop(o, m) == (u, v);
    assert m == 0;
  }

  lemma TiedFirstHop(p: Limits, a: Event, b: Event)
    requires !OrderFree(p) && ((a == ONE && b == OTHER) || (a == OTHER && b == ONE))
    ensures (0, 1) in HostEdges([TUNNEL, a, b], p, 0)
  {
    hide HostChain;
    TiedChain(a, b);
    var o := HostChain([TUNNEL, a, b], 0);
    assert HostJoined(o, p, 0) && Hop(o, 0) == (0, 1);
  }

  lemma TiesSplit(p: Limits, a: Event, b: Event)
    requires !OrderFree(p) && ((a == ONE && b == OTHER) || (a == OTHER && b == ONE))
    ensures SameCluster([TUNNEL, a, b], p, 0, 1) && !SameCluster([TUNNEL, a, b], p, 0, 2)
  {
    var events := [TUNNEL, a, b];
    var e := JoinEdges(events, p);
    hide EntityEdges, HostEdges, Linked;
    TiedFirstHop(p, a, b);
    assert events[0].host in AllHosts(events);
    assert (0, 1) in e;
    hide JoinEdges;
    LinkedEdge(e, 0, 1);
    forall x: nat, y: nat | Joined(e, x, y) && x in iset{0, 1} ensures y in iset{0, 1} {
      if (x, y) in e { TiedEdges(p, a, b, x, y); } else { TiedEdges(p, a, b, y, x); }
    }
    if SameCluster(events, p, 0, 2) {
      LinkedStaysInside(e, iset{0, 1}, 0, 2);
    }
  }

  /** Exactly the order-free limits make the partition independent of the arrival order. */
  lemma ArrivalIndependentIff(p: Limits)
    ensures ArrivalIndependent(p) <==> OrderFree(p)
  {
    if OrderFree(p) {
      forall events: seq<Event>, perm: seq<nat>, inv: seq<nat>, i: nat, j: nat
        | Reordering(perm, inv) && |perm| == |events| && i < |events| && j < |events|
        ensures SameCluster(Reordered(events, perm), p, i, j) <==> SameCluster(events, p, perm[i], perm[j])
      {
        ClustersKeepUnderReordering(events, p, perm, inv, i, j);
      }
    } else {
      var events := [TUNNEL, ONE, OTHER];
      var swap: seq<nat> := [0, 2, 1];
      TiesSplit(p, ONE, OTHER);
      TiesSplit(p, OTHER, ONE);
      assert Reordering(swap, swap);
      assert Reordered(events, swap) == [TUNNEL, OTHER, ONE];
      assert SameCluster(Reordered(events, swap), p, 0, 1) && !SameCluster(events, p, swap[0], swap[1]);
    }
  }

  // --------------------------------------------- what a join means, field by field

  /** j comes after i: undated events last, then by time, layer, content and arrival. */
  predicate Before(events: seq<Event>, i: nat, j: nat)
    requires i < |events| && j < |events|
  {
    var a, b := events[i], events[j];
    var tie := a.layer < b.layer
               || (a.layer == b.layer && (a.content < b.content || (a.content == b.content && i < j)));
    match (a.time, b.time)
    case (Some(s), Some(t)) => s < t || (s == t && tie)
    case (Some(_), None) => true
    case (None, Some(_)) => false
    case (None, None) => tie
  }

  /** j is the next event of i's device. */
  ghost predicate NextOnDevice(events: seq<Event>, i: nat, j: nat) {
    && i < |events| && j < |events| && events[i].host == events[j].host && Before(events, i, j)
    && !exists k: nat ::
         k < |events| && events[k].host == events[i].host && Before(events, i, k) && Before(events, k, j)
  }

  /** A cause and the effect that follows it on its device: never up the layers unless within a
      second, and within the hold time exactly from a tunnel (layer 2) to a session (layer 3). */
  ghost predicate DeviceJoin(events: seq<Event>, p: Limits, i: nat, j: nat) {
    && NextOnDevice(events, i, j)
    && var a, b := events[i], events[j];
       match (a.time, b.time)
       case (Some(s), Some(t)) =>
         && (a.layer <= b.layer || t - s <= 1_000_000)
         && t - s <= (if a.layer == 2 && b.layer == 3 then p.hold else p.sameDevice)
       case (None, None) => a.layer <= b.layer
       case _ => false
  }

  /** One key, and at most the window apart or both undated. */
  ghost predicate KeyJoin(events: seq<Event>, p: Limits, i: nat, j: nat) {
    && i < |events| && j < |events|
    && (exists k :: k in events[i].keys && k in events[j].keys)
    && match (events[i].time, events[j].time)
       case (Some(s), Some(t)) => -p.window <= t - s <= p.window
       case (None, None) => true
       case _ => false
  }

  ghost function PlainEdges(events: seq<Event>, p: Limits): Edges {
    set i: nat, j: nat | i < |events| && j < |events| && (KeyJoin(events, p, i, j) || DeviceJoin(events, p, i, j))
      :: (i, j)
  }

  const BY_ARRIVAL: (Slot, Slot) -> bool := (a: Slot, b: Slot) => a.id <= b.id

  lemma {:induction false} MembersArrive(events: seq<Event>, host: nat, n: nat)
    requires n <= |events|
    ensures SortedBy(BY_ARRIVAL, HostMembers(events, host, n)) && Distinct(HostMembers(events, host, n))
    ensures forall x :: x in HostMembers(events, host, n) ==> x.id < n
  {
    if n > 0 {
      MembersArrive(events, host, n - 1);
      var init := HostMembers(events, host, n - 1);
      forall m | 0 <= m < |init| ensures init[m].id < n - 1 { assert init[m] in init; }
    }
  }

  /** The chain of a device stands in the order of `Before`. */
  lemma ChainInOrder(events: seq<Event>, host: nat, a: nat, b: nat)
    requires a < b < |HostChain(events, host)|
    ensures var o := HostChain(events, host);
            IsSlot(events, o[a]) && IsSlot(events, o[b]) && Before(events, o[a].id, o[b].id)
  {
    var members, o := HostMembers(events, host, |events|), HostChain(events, host);
    HostChainFacts(events, host);
    assert o[a] in o && o[b] in o;
    KeyOrderTotal();
    MembersArrive(events, host, |events|);
    StableSortStable(BY_KEY, BY_ARRIVAL, members);
    StableSortSorts(BY_KEY, members);
    DistinctByMultiset(members, o);
    assert BY_KEY(o[a], o[b]) && (BY_KEY(o[b], o[a]) ==> BY_ARRIVAL(o[a], o[b]));
  }

  lemma NoneTwice(events: seq<Event>, i: nat, j: nat)
    requires i < |events| && j < |events| && Before(events, i, j)
    ensures i != j && !Before(events, j, i)
  {
  }

  /** Chain neighbours are the pairs without an event of the device between them. */
  lemma ChainNeighbours(events: seq<Event>, host: nat, m: nat)
    requires m + 1 < |HostChain(events, host)|
    ensures NextOnDevice(events, HostChain(events, host)[m].id, HostChain(events, host)[m + 1].id)
    ensures events[HostChain(events, host)[m].id].host == host
  {
    hide Before, HostChain;
    var o := HostChain(events, host);
    HostChainFacts(events, host);
    ChainInOrder(events, host, m, m + 1);
    var i, j := o[m].id, o[m + 1].id;
    assert o[m] in o && o[m + 1] in o;
    forall k: nat | k < |events| && events[k].host == host && Before(events, i, k) && Before(events, k, j)
      ensures false
    {
      assert Slot(k, events[k]) in o;
      var q :| 0 <= q < |o| && o[q] == Slot(k, events[k]);
      NoneTwice(events, i, k);
      NoneTwice(events, k, j);
      if q < m { ChainInOrder(events, host, q, m); } else if q > m + 1 { ChainInOrder(events, host, m + 1, q); }
    }
  }

  lemma NothingBetween(events: seq<Event>, i: nat, j: nat, k: nat)
    requires NextOnDevice(events, i, j) && k < |events| && events[k].host == events[i].host
    ensures !(Before(events, i, k) && Before(events, k, j))
  {
  }

  lemma PlaceInChain(events: seq<Event>, i: nat) returns (m: nat)
    requires i < |events|
    ensures var o := HostChain(events, events[i].host); m < |o| && o[m] == Slot(i, events[i])
  {
    var o := HostChain(events, events[i].host);
    HostChainFacts(events, events[i].host);
    assert Slot(i, events[i]) in o;
    m :| m < |o| && o[m] == Slot(i, events[i]);
  }

  lemma NextIsNeighbour(events: seq<Event>, i: nat, j: nat) returns (m: nat)
    requires NextOnDevice(events, i, j)
    ensures var o := HostChain(events, events[i].host); m + 1 < |o| && Hop(o, m) == (i, j)
    ensures var o := HostChain(events, events[i].host); o[m].ev == events[i] && o[m + 1].ev == events[j]
  {
    hide Before, HostChain;
    NoneTwice(events, i, j);
    var host := events[i].host;
    m := PlaceInChain(events, i);
    var q := PlaceInChain(events, j);
    hide NextOnDevice;
    if q < m { ChainInOrder(events, host, q, m); }
    if m + 1 < q {
      var o := HostChain(events, host);
      HostChainFacts(events, host);
      assert o[m + 1] in o;
      NothingBetween(events, i, j, o[m + 1].id);
      ChainInOrder(events, host, m, m + 1);
      ChainInOrder(events, host, m + 1, q);
    }
  }

  lemma HostOkMeans(events: seq<Event>, p: Limits, i: nat, j: nat)
    requires NextOnDevice(events, i, j)
    ensures HostOk(events[i], events[j], p) <==> DeviceJoin(events, p, i, j)
  {
  }

  lemma HostEdgeIff(events: seq<Event>, p: Limits, i: nat, j: nat)
    ensures (i, j) in HostJoins(events, p, AllHosts(events)) <==> DeviceJoin(events, p, i, j)
  {
    hide Before, HostChain, HostOk;
    if (i, j) in HostJoins(events, p, AllHosts(events)) {
      var h :| h in AllHosts(events) && (i, j) in HostEdges(events, p, h);
      var o := HostChain(events, h);
      var m: nat :| m < |o| && HostJoined(o, p, m) && Hop(o, m) == (i, j);
      ChainNeighbours(events, h, m);
      ChainInOrder(events, h, m, m + 1);
      HostOkMeans(events, p, i, j);
    }
    if DeviceJoin(events, p, i, j) {
      var m := NextIsNeighbour(events, i, j);
      HostOkMeans(events, p, i, j);
      var o := HostChain(events, events[i].host);
      assert HostJoined(o, p, m) && Hop(o, m) in HostHops(o, p, |o|);
      assert events[i].host in AllHosts(events);
      assert (i, j) in HostEdges(events, p, events[i].host);
    }
  }

  lemma RelatedMeans(events: seq<Event>, p: Limits, i: nat, j: nat)
    ensures Related(events, p.window, i, j) <==> KeyJoin(events, p, i, j)
  {
  }

  lemma PlainEdgeIff(events: seq<Event>, p: Limits, i: nat, j: nat)
    ensures (i, j) in PlainEdges(events, p) <==> KeyJoin(events, p, i, j) || DeviceJoin(events, p, i, j)
  {
  }

  lemma PlainEdgeInside(events: seq<Event>, p: Limits, i: nat, j: nat)
    requires (i, j) in PlainEdges(events, p)
    ensures i < |events| && j < |events|
  {
  }

  lemma KeyJoinBack(events: seq<Event>, p: Limits, i: nat, j: nat)
    ensures KeyJoin(events, p, i, j) <==> KeyJoin(events, p, j, i)
  {
  }

  /** The clusters are the components of the joins, read off the fields of the events. */
  lemma ClustersMean(events: seq<Event>, p: Limits, i: nat, j: nat)
    ensures SameCluster(events, p, i, j) <==> Linked(PlainEdges(events, p), i, j)
  {
    var e, f := JoinEdges(events, p), PlainEdges(events, p);
    hide HostJoins, DeviceJoin, KeyJoin, EntityEdges, PlainEdges, Linked;
    forall x: nat, y: nat | (x, y) in e ensures Linked(f, x, y) {
      if (x, y) in EntityEdges(events, p) {
        EntityEdgeIsRelated(events, p, x, y);
        RelatedMeans(events, p, x, y);
      } else {
        HostEdgeIff(events, p, x, y);
      }
      PlainEdgeIff(events, p, x, y);
      LinkedEdge(f, x, y);
    }
    forall x: nat, y: nat | (x, y) in f ensures Linked(e, x, y) {
      PlainEdgeIff(events, p, x, y);
      RelatedMeans(events, p, x, y);
      if Related(events, p.window, x, y) {
        RelatedIsLinked(events, p, x, y);
        ClustersCoarsen(events, p, x, y);
      } else {
        HostEdgeIff(events, p, x, y);
        LinkedEdge(e, x, y);
      }
    }
    if Linked(e, i, j) { LinkedRefine(e, f, i, j); }
    if Linked(f, i, j) { LinkedRefine(f, e, i, j); }
  }

  /** Two events alone are in one cluster only by a key or as cause and effect of one device. */
  lemma TwoEventsIff(events: seq<Event>, p: Limits)
    requires |events| == 2
    ensures SameCluster(events, p, 0, 1) <==>
            KeyJoin(events, p, 0, 1) || DeviceJoin(events, p, 0, 1) || DeviceJoin(events, p, 1, 0)
  {
    var f := PlainEdges(events, p);
    ClustersMean(events, p, 0, 1);
    KeyJoinBack(events, p, 0, 1);
    PlainEdgeIff(events, p, 0, 1);
    PlainEdgeIff(events, p, 1, 0);
    hide Linked, DeviceJoin, KeyJoin, JoinEdges, PlainEdges;
    if KeyJoin(events, p, 0, 1) || DeviceJoin(events, p, 0, 1) || DeviceJoin(events, p, 1, 0) {
      assert (0, 1) in f || (1, 0) in f;
      LinkedEdge(f, 0, 1);
    } else if Linked(f, 0, 1) {
      forall x: nat, y: nat | Joined(f, x, y) && x in iset{0} ensures y in iset{0} {
        if (x, y) in f { PlainEdgeInside(events, p, x, y); } else { PlainEdgeInside(events, p, y, x); }
      }
      LinkedStaysInside(f, iset{0}, 0, 1);
    }
  }

  // ------------------------------------------------------------------ the methods

  ghost predicate ValidIds(o: seq<Slot>, n: nat) {
    forall m :: 0 <= m < |o| ==> o[m].id < n
  }

  ghost predicate Tracks(f: Forest, n: nat, e: Edges)
    reads f, f.par
  {
    f.Valid() && f.par.Length == n && Represents(f.rep, e)
  }

  /** `union` on one forest */
  method Join(f: Forest, a: nat, b: nat, ghost n: nat, ghost e: Edges)
    requires Tracks(f, n, e) && a < n && b < n
    modifies f`rep, f`depth, f.par
    ensures Tracks(f, n, e + {(a, b)})
  {
    MergeRepresents(f.rep, e, a, b);
    f.Union(a, b);
  }

  /** The chain of one key: neighbours in order are joined in both forests. */
  method JoinKeyChain(parent: Forest, eparent: Forest, o: seq<Slot>, window: int, ghost n: nat, ghost e: Edges)
    requires parent != eparent && parent.par != eparent.par
    requires Tracks(parent, n, e) && Tracks(eparent, n, e) && ValidIds(o, n)
    modifies parent`rep, parent`depth, parent.par, eparent`rep, eparent`depth, eparent.par
    ensures Tracks(parent, n, e + KeyHops(o, window, |o|)) && Tracks(eparent, n, e + KeyHops(o, window, |o|))
  {
    assert e + KeyHops(o, window, 0) == e;
    for m := 0 to |o|
      invariant Tracks(parent, n, e + KeyHops(o, window, m)) && Tracks(eparent, n, e + KeyHops(o, window, m))
    {
      ghost var now := e + KeyHops(o, window, m);
      if m + 1 < |o| && Close(o[m].ev, o[m + 1].ev, window) {
        Join(parent, o[m].id, o[m + 1].id, n, now);
        Join(eparent, o[m].id, o[m + 1].id, n, now);
        assert now + {Hop(o, m)} == e + KeyHops(o, window, m + 1);
      } else {
        assert KeyHops(o, window, m + 1) == KeyHops(o, window, m);
      }
    }
  }

  /** The chain of one device: neighbours are joined in the full forest only. */
  method JoinHostChain(parent: Forest, o: seq<Slot>, p: Limits, ghost n: nat, ghost e: Edges)
    requires Tracks(parent, n, e) && ValidIds(o, n)
    modifies parent`rep, parent`depth, parent.par
    ensures Tracks(parent, n, e + HostHops(o, p, |o|))
  {
    assert e + HostHops(o, p, 0) == e;
    for m := 0 to |o|
      invariant Tracks(parent, n, e + HostHops(o, p, m))
    {
      if m + 1 < |o| {
        var a, b := o[m].ev, o[m + 1].ev;
        if Simultaneous(a, b) || a.layer <= b.layer {
          var limit := if a.layer == TRANSPORT && b.layer == ROUTING then p.hold else p.sameDevice;
          if Close(a, b, limit) {
            ghost var now := e + HostHops(o, p, m);
            Join(parent, o[m].id, o[m + 1].id, n, now);
            assert now + {Hop(o, m)} == e + HostHops(o, p, m + 1);
            continue;
          }
        }
      }
      assert HostHops(o, p, m + 1) == HostHops(o, p, m);
    }
  }

  function At(m: map<nat, seq<Slot>>, k: nat): seq<Slot> {
    if k in m then m[k] else []
  }

  ghost predicate UnderAt(m0: map<nat, seq<Slot>>, m: map<nat, seq<Slot>>, keys: seq<nat>, slot: Slot, k: nat) {
    && (k in m <==> k in m0 || k in keys)
    && At(m, k) == At(m0, k) + Repeated(keys, k, slot)
  }

  ghost predicate Under(m0: map<nat, seq<Slot>>, m: map<nat, seq<Slot>>, keys: seq<nat>, slot: Slot) {
    forall k :: UnderAt(m0, m, keys, slot, k)
  }

  /** One event is appended under each of its keys. */
  method AppendUnder(byKey0: map<nat, seq<Slot>>, keys: seq<nat>, slot: Slot) returns (byKey: map<nat, seq<Slot>>)
    ensures Under(byKey0, byKey, keys, slot)
  {
    byKey := byKey0;
    assert forall k: nat :: UnderAt(byKey0, byKey, keys[..0], slot, k);
    for j := 0 to |keys|
      invariant Under(byKey0, byKey, keys[..j], slot)
    {
      UnderOneMore(byKey0, byKey, keys[..j], keys[j], slot);
      assert keys[..j + 1] == keys[..j] + [keys[j]];
      byKey := byKey[keys[j] := At(byKey, keys[j]) + [slot]];
    }
    assert keys[..|keys|] == keys;
  }

  lemma UnderOneMore(m0: map<nat, seq<Slot>>, m: map<nat, seq<Slot>>, keys: seq<nat>, key: nat, slot: Slot)
    requires Under(m0, m, keys, slot)
    ensures Under(m0, m[key := At(m, key) + [slot]], keys + [key], slot)
  {
    var m' := m[key := At(m, key) + [slot]];
    forall k ensures UnderAt(m0, m', keys + [key], slot, k) {
      assert UnderAt(m0, m, keys, slot, k);
      AtOneMore(At(m0, k), At(m, k), keys, key, k, slot);
    }
  }

  lemma AtOneMore(before: seq<Slot>, now: seq<Slot>, keys: seq<nat>, key: nat, k: nat, slot: Slot)
    requires now == before + Repeated(keys, k, slot)
    ensures (if k == key then now + [slot] else now) == before + Repeated(keys + [key], k, slot)
  {
    RepeatedAppend(keys, key, k, slot);
  }

  lemma {:induction false} RepeatedAppend(keys: seq<nat>, last: nat, key: nat, slot: Slot)
    ensures Repeated(keys + [last], key, slot) == Repeated(keys, key, slot) + if last == key then [slot] else []
  {
    if keys == [] {
      assert [last][1..] == [];
    } else {
      assert (keys + [last])[1..] == keys[1..] + [last];
      RepeatedAppend(keys[1..], last, key, slot);
    }
  }

  ghost predicate GroupedAt(events: seq<Event>, byKey: map<nat, seq<Slot>>, i: nat, k: nat)
    requires i <= |events|
  {
    && At(byKey, k) == KeyMembers(events, k, i)
    && (k in byKey <==> KeyMembers(events, k, i) != [])
  }

  lemma GroupedOneMore(events: seq<Event>, before: map<nat, seq<Slot>>, byKey: map<nat, seq<Slot>>, i: nat, k: nat)
    requires i < |events| && GroupedAt(events, before, i, k)
    requires UnderAt(before, byKey, events[i].keys, Slot(i, events[i]), k)
    ensures GroupedAt(events, byKey, i + 1, k)
  {
    var more := Repeated(events[i].keys, k, Slot(i, events[i]));
    RepeatedIff(events[i].keys, k, Slot(i, events[i]), Slot(i, events[i]));
    if more != [] {
      RepeatedIff(events[i].keys, k, Slot(i, events[i]), more[0]);
      assert more[0] in more;
    }
  }

  lemma KeysGrouped(events: seq<Event>, k: nat)
    ensures k in AllKeys(events) <==> KeyMembers(events, k, |events|) != []
  {
    var all := KeyMembers(events, k, |events|);
    if all != [] {
      assert all[0] in all;
      KeyMemberIff(events, k, |events|, all[0]);
    }
    if k in AllKeys(events) {
      var i :| 0 <= i < |events| && k in events[i].keys;
      KeyMemberIff(events, k, |events|, Slot(i, events[i]));
    }
  }

  /** The loop that fills `by_key`. */
  method GroupByKey(events: seq<Event>) returns (byKey: map<nat, seq<Slot>>)
    ensures byKey.Keys == AllKeys(events)
    ensures forall k :: k in byKey ==> byKey[k] == KeyMembers(events, k, |events|)
  {
    byKey := map[];
    for i := 0 to |events|
      invariant forall k: nat :: GroupedAt(events, byKey, i, k)
    {
      ghost var before := byKey;
      byKey := AppendUnder(byKey, events[i].keys, Slot(i, events[i]));
      ghost var next := i + 1;
      forall k: nat ensures GroupedAt(events, byKey, next, k) {
        assert GroupedAt(events, before, i, k);
        assert UnderAt(before, byKey, events[i].keys, Slot(i, events[i]), k);
        GroupedOneMore(events, before, byKey, i, k);
      }
    }
    forall k: nat ensures k in byKey <==> k in AllKeys(events) {
      assert GroupedAt(events, byKey, |events|, k);
      KeysGrouped(events, k);
    }
    forall k | k in byKey ensures byKey[k] == KeyMembers(events, k, |events|) {
      assert GroupedAt(events, byKey, |events|, k);
    }
  }

  lemma AllHostsMore(events: seq<Event>, i: nat)
    requires i < |events|
    ensures AllHosts(events[..i + 1]) == AllHosts(events[..i]) + {events[i].host}
  {
    assert events[..i + 1] == events[..i] + [events[i]];
    forall h | h in AllHosts(events[..i]) ensures h in AllHosts(events[..i + 1]) {
      var k :| 0 <= k < i && events[..i][k].host == h;
      assert events[..i + 1][k].host == h;
    }
  }

  /** The loop that fills `by_host`. */
  method GroupByHost(events: seq<Event>) returns (byHost: map<nat, seq<Slot>>)
    ensures byHost.Keys == AllHosts(events)
    ensures forall h :: h in byHost ==> byHost[h] == HostMembers(events, h, |events|)
  {
    byHost := map[];
    for i := 0 to |events|
      invariant byHost.Keys == AllHosts(events[..i])
      invariant forall h: nat :: At(byHost, h) == HostMembers(events, h, i)
    {
      var host := events[i].host;
      AllHostsMore(events, i);
      byHost := byHost[host := At(byHost, host) + [Slot(i, events[i])]];
    }
    assert events[..|events|] == events;
    assert forall h :: h in byHost ==> byHost[h] == At(byHost, h);
  }

  /** `find` on every event in turn */
  method Representatives(f: Forest, ghost n: nat, ghost e: Edges) returns (reps: seq<nat>)
    requires Tracks(f, n, e)
    modifies f.par
    ensures |reps| == n
    ensures forall i, j :: 0 <= i < n && 0 <= j < n ==> (reps[i] == reps[j] <==> Linked(e, i, j))
  {
    reps := [];
    for i := 0 to f.par.Length
      invariant Tracks(f, n, e) && |reps| == i && f.rep == old(f.rep)
      invariant forall k :: 0 <= k < i ==> reps[k] == f.rep[k]
    {
      var r := f.Find(i);
      reps := reps + [r];
    }
  }

  method JoinByKeys(events: seq<Event>, p: Limits, parent: Forest, eparent: Forest)
    requires parent != eparent && parent.par != eparent.par
    requires Tracks(parent, |events|, {}) && Tracks(eparent, |events|, {})
    modifies parent`rep, parent`depth, parent.par, eparent`rep, eparent`depth, eparent.par
    ensures Tracks(parent, |events|, EntityEdges(events, p)) && Tracks(eparent, |events|, EntityEdges(events, p))
  {
    var byKey := GroupByKey(events);
    var todo := byKey.Keys;
    ghost var done: set<nat>, e: Edges := {}, {};
    while todo != {}
      invariant todo + done == byKey.Keys && e == EntityJoins(events, p.window, done)
      invariant Tracks(parent, |events|, e) && Tracks(eparent, |events|, e)
      decreases todo
    {
      var key :| key in todo;
      var ordered := StableSort(BY_KEY, byKey[key]);
      KeyChainIds(events, key);
      JoinKeyChain(parent, eparent, ordered, p.window, |events|, e);
      JoinOneMore(events, p.window, done, key);
      e := e + KeyEdges(events, p.window, key);
      todo, done := todo - {key}, done + {key};
    }
  }

  method JoinByHosts(events: seq<Event>, p: Limits, parent: Forest, ghost e: Edges)
    requires Tracks(parent, |events|, e)
    modifies parent`rep, parent`depth, parent.par
    ensures Tracks(parent, |events|, e + HostJoins(events, p, AllHosts(events)))
  {
    var byHost := GroupByHost(events);
    var todo := byHost.Keys;
    ghost var done: set<nat>, f := {}, e;
    while todo != {}
      invariant todo + done == byHost.Keys && f == e + HostJoins(events, p, done)
      invariant Tracks(parent, |events|, f)
      decreases todo
    {
      var host :| host in todo;
      var ordered := StableSort(BY_KEY, byHost[host]);
      HostChainIds(events, host);
      JoinHostChain(parent, ordered, p, |events|, f);
      HostOneMore(events, p, done, host);
      f := f + HostEdges(events, p, host);
      todo, done := todo - {host}, done + {host};
    }
  }

  lemma JoinsMean(events: seq<Event>, p: Limits)
    ensures forall i: nat, j: nat :: SameCluster(events, p, i, j) <==> Linked(PlainEdges(events, p), i, j)
    ensures forall i: nat, j: nat :: DeviceJoin(events, p, i, j) ==> SameCluster(events, p, i, j)
    ensures |events| == 2 ==>
              (SameCluster(events, p, 0, 1) <==>
                KeyJoin(events, p, 0, 1) || DeviceJoin(events, p, 0, 1) || DeviceJoin(events, p, 1, 0))
  {
    hide DeviceJoin, SameCluster, PlainEdges;
    forall i: nat, j: nat { ClustersMean(events, p, i, j); }
    forall i: nat, j: nat | DeviceJoin(events, p, i, j) ensures SameCluster(events, p, i, j) {
      PlainEdgeIff(events, p, i, j);
      LinkedEdge(PlainEdges(events, p), i, j);
    }
    if |events| == 2 { TwoEventsIff(events, p); }
  }

  /** The two forests of `correlate_entities`: every event's cluster and its entity-only part. */
  method CorrelateEntities(events: seq<Event>, p: Limits) returns (cluster: seq<nat>, part: seq<nat>)
    ensures |cluster| == |part| == |events|
    ensures forall i: nat, j: nat :: i < |events| && j < |events| ==>
              (cluster[i] == cluster[j] <==> SameCluster(events, p, i, j))
    ensures forall i: nat, j: nat :: i < |events| && j < |events| ==>
              (part[i] == part[j] <==> Linked(AllPairs(events, p.window), i, j))
    ensures forall i: nat, j: nat :: i < |events| && j < |events| ==>
              (cluster[i] == cluster[j] <==> Linked(PlainEdges(events, p), i, j))
    ensures forall i: nat, j: nat :: DeviceJoin(events, p, i, j) ==> cluster[i] == cluster[j]
    ensures |events| == 2 ==>
              (cluster[0] == cluster[1] <==>
                KeyJoin(events, p, 0, 1) || DeviceJoin(events, p, 0, 1) || DeviceJoin(events, p, 1, 0))
  {
    var parent := new Forest(|events|);
    var eparent := new Forest(|events|);
    SingletonsRepresent(|events|);
    JoinByKeys(events, p, parent, eparent);
    JoinByHosts(events, p, parent, EntityEdges(events, p));
    cluster := Representatives(parent, |events|, JoinEdges(events, p));
    part := Representatives(eparent, |events|, EntityEdges(events, p));
    forall i: nat, j: nat | i < |events| && j < |events| { EntityComponents(events, p, i, j); }
    JoinsMean(events, p);
  }

  lemma KeyChainIds(events: seq<Event>, key: nat)
    ensures ValidIds(KeyChain(events, key), |events|)
  {
    KeyChainFacts(events, key);
    var o := KeyChain(events, key);
    forall m | 0 <= m < |o| ensures o[m].id < |events| { assert o[m] in o; }
  }

  lemma HostChainIds(events: seq<Event>, host: nat)
    ensures ValidIds(HostChain(events, host), |events|)
  {
    HostChainFacts(events, host);
    var o := HostChain(events, host);
    forall m | 0 <= m < |o| ensures o[m].id < |events| { assert o[m] in o; }
  }

  lemma JoinOneMore(events: seq<Event>, window: int, keys: set<nat>, key: nat)
    ensures EntityJoins(events, window, keys + {key}) ==
            EntityJoins(events, window, keys) + KeyEdges(events, window, key)
  {
  }

  lemma HostOneMore(events: seq<Event>, p: Limits, hosts: set<nat>, host: nat)
    ensures HostJoins(events, p, hosts + {host}) == HostJoins(events, p, hosts) + HostEdges(events, p, host)
  {
  }
}
