/** Least-recently-used eviction: which keys a bounded ordered map holds after any stream of uses.
    The entity tracker and the template miner both evict this way. `Tracked` is the specification
    over the whole stream, `Recency` the invariant that ties an ordered map to it. */
module LeastRecent {
  import opened Ordering

  /** The keys in the order they were used. */
  type Log = seq<nat>

  function Last(h: Log): nat
    requires h != []
  {
    h[|h| - 1]
  }

  function Init(h: Log): Log
    requires h != []
  {
    h[..|h| - 1]
  }

  /** How many uses had been made when k was last used; 0 for never. */
  function LastSeen(h: Log, k: nat): nat {
    if h == [] then 0 else if Last(h) == k then |h| else LastSeen(Init(h), k)
  }

  function Keys(h: Log): set<nat> {
    set u | u in h
  }

  /** The keys used after k's last use. */
  function Newer(h: Log, k: nat): set<nat> {
    set x | x in Keys(h) && LastSeen(h, x) > LastSeen(h, k)
  }

  /** k is among the cap most recently used keys. */
  ghost predicate Tracked(h: Log, cap: nat, k: nat) {
    k in Keys(h) && |Newer(h, k)| < cap
  }

  // ------------------------------------------------------------ one more use

  lemma KeysMore(h: Log, u: nat)
    ensures Keys(h + [u]) == Keys(h) + {u}
  {
  }

  lemma {:induction false} LastSeenBound(h: Log, k: nat)
    ensures LastSeen(h, k) <= |h| && (LastSeen(h, k) > 0 <==> k in Keys(h))
  {
    if h != [] {
      assert h == Init(h) + [Last(h)];
      KeysMore(Init(h), Last(h));
      LastSeenBound(Init(h), k);
    }
  }

  lemma NewerNext(h: Log, u: nat, k: nat)
    ensures Newer(h + [u], k) == if k == u then {} else Newer(h, k) + {u}
  {
    var next := h + [u];
    assert Init(next) == h && Last(next) == u;
    KeysMore(h, u);
    forall x { LastSeenBound(h, x); }
    LastSeenBound(next, k);
    forall x ensures x in Newer(next, k) <==> k != u && (x in Newer(h, k) || x == u) {
      LastSeenBound(next, x);
    }
  }

  /** The tracked keys, oldest use first. */
  ghost predicate Recency(h: Log, cap: nat, order: seq<nat>) {
    && Distinct(order) && |order| <= cap
    && (forall k :: k in order <==> Tracked(h, cap, k))
    && (forall i :: 0 <= i < |order| ==> NewerAt(h, order, i))
  }

  ghost predicate NewerAt(h: Log, order: seq<nat>, i: int)
    requires 0 <= i < |order|
  {
    Newer(h, order[i]) == Elements(order[i + 1..])
  }

  function Without(order: seq<nat>, i: nat): seq<nat>
    requires i < |order|
  {
    order[..i] + order[i + 1..]
  }

  lemma TailSize(order: seq<nat>, i: nat)
    requires Distinct(order) && i <= |order|
    ensures |Elements(order[i..])| == |order| - i
  {
    DistinctSize(order[i..]);
  }

  lemma WithoutTail(order: seq<nat>, p: nat, i: nat)
    requires p < |order| && i < |order| - 1
    ensures Elements((Without(order, p) + [order[p]])[i + 1..]) ==
            (if i < p then Elements(order[i + 1..]) else Elements(order[i + 2..])) + {order[p]}
  {
    var moved := Without(order, p) + [order[p]];
    if i < p {
      assert moved[i + 1..] == order[i + 1..p] + order[p + 1..] + [order[p]];
      assert order[i + 1..] == order[i + 1..p] + [order[p]] + order[p + 1..];
    } else {
      assert moved[i + 1..] == order[i + 2..] + [order[p]];
    }
  }

  lemma TrackedNext(h: Log, cap: nat, u: nat, k: nat)
    requires cap > 0
    ensures Tracked(h + [u], cap, u)
    ensures k != u ==> (Tracked(h + [u], cap, k) <==> k in Keys(h) && |Newer(h, k) + {u}| < cap)
  {
    NewerNext(h, u, k);
    NewerNext(h, u, u);
    KeysMore(h, u);
  }

  lemma UntrackedStays(h: Log, cap: nat, u: nat, k: nat)
    requires cap > 0 && k != u && !Tracked(h, cap, k)
    ensures !Tracked(h + [u], cap, k)
  {
    TrackedNext(h, cap, u, k);
    if k in Keys(h) {
      assert Newer(h, k) <= Newer(h, k) + {u};
      SubsetSize(Newer(h, k), Newer(h, k) + {u});
    }
  }

  lemma SubsetSize<T>(a: set<T>, b: set<T>)
    requires a <= b
    ensures |a| <= |b|
  {
    assert b == a + (b - a);
  }

  /** A tracked key that is used moves to the end. */
  lemma MovedIsRecency(h: Log, cap: nat, order: seq<nat>, u: nat, p: nat)
    requires cap > 0 && Recency(h, cap, order) && p < |order| && order[p] == u
    ensures Recency(h + [u], cap, Without(order, p) + [u])
  {
    var next, moved := h + [u], Without(order, p) + [u];
    forall k ensures k in moved <==> k in order { InMoved(order, p, k); }
    forall i | 0 <= i < |moved| ensures NewerAt(next, moved, i) {
      NewerNext(h, u, moved[i]);
      if i < |moved| - 1 {
        WithoutTail(order, p, i);
        assert NewerAt(h, order, if i < p then i else i + 1);
      }
    }
    MovedDistinct(order, p);
    forall k ensures k in moved <==> Tracked(next, cap, k) {
      InMoved(order, p, k);
      RecencyMembers(h, cap, order, k);
      if k == u {
        TrackedNext(h, cap, u, k);
      } else if k in order {
        InsertedTracks(h, cap, u, moved, k);
      } else {
        UntrackedStays(h, cap, u, k);
      }
    }
  }

  lemma MovedDistinct(order: seq<nat>, p: nat)
    requires Distinct(order) && p < |order|
    ensures Distinct(Without(order, p) + [order[p]])
  {
    var moved := Without(order, p) + [order[p]];
    forall i, j | 0 <= i < j < |moved| ensures moved[i] != moved[j] {
      assert moved[i] == order[if i < p then i else if i == |order| - 1 then p else i + 1];
      assert moved[j] == order[if j < p then j else if j == |order| - 1 then p else j + 1];
    }
  }

  lemma InMoved(order: seq<nat>, p: nat, k: nat)
    requires p < |order|
    ensures k in Without(order, p) + [order[p]] <==> k in order
  {
    assert order == order[..p] + [order[p]] + order[p + 1..];
  }

  function Inserted(order: seq<nat>, cap: nat, u: nat): seq<nat>
    requires cap > 0
  {
    (if |order| == cap then order[1..] else order) + [u]
  }

  lemma InsertedTail(order: seq<nat>, cap: nat, u: nat, i: nat)
    requires cap > 0 && |order| <= cap && u !in order && i < |Inserted(order, cap, u)| - 1
    ensures var more, off := Inserted(order, cap, u), |order| + 1 - |Inserted(order, cap, u)|;
            more[i] == order[i + off] != u && Elements(more[i + 1..]) == Elements(order[i + off + 1..]) + {u}
  {
    var more := Inserted(order, cap, u);
    var off := |order| + 1 - |more|;
    assert order[i + off] in order;
    assert more[i + 1..] == order[i + off + 1..] + [u];
  }

  lemma InsertedNewer(h: Log, cap: nat, order: seq<nat>, u: nat, i: nat)
    requires cap > 0 && Recency(h, cap, order) && u !in order && i < |Inserted(order, cap, u)|
    ensures NewerAt(h + [u], Inserted(order, cap, u), i)
  {
    var more := Inserted(order, cap, u);
    var off := |order| + 1 - |more|;
    NewerNext(h, u, more[i]);
    if i < |more| - 1 {
      assert NewerAt(h, order, i + off);
      hide Recency;
      InsertedTail(order, cap, u, i);
    }
  }

  lemma InsertedDistinct(order: seq<nat>, cap: nat, u: nat)
    requires cap > 0 && Distinct(order) && u !in order
    ensures Distinct(Inserted(order, cap, u))
    ensures forall k :: k in Inserted(order, cap, u) ==> k == u || k in order
  {
  }

  lemma InsertedIsRecency(h: Log, cap: nat, order: seq<nat>, u: nat)
    requires cap > 0 && Recency(h, cap, order) && u !in order
    ensures Recency(h + [u], cap, Inserted(order, cap, u))
  {
    var next, more := h + [u], Inserted(order, cap, u);
    InsertedDistinct(order, cap, u);
    forall i | 0 <= i < |more| ensures NewerAt(next, more, i) {
      InsertedNewer(h, cap, order, u, i);
    }
    forall k ensures k in more <==> Tracked(next, cap, k) {
      InsertedMember(h, cap, order, u, k);
    }
  }

  /** A new key goes to the end; the oldest one leaves a full map. */
  lemma InsertedMember(h: Log, cap: nat, order: seq<nat>, u: nat, k: nat)
    requires cap > 0 && Recency(h, cap, order) && u !in order
    requires forall i :: 0 <= i < |Inserted(order, cap, u)| ==> NewerAt(h + [u], Inserted(order, cap, u), i)
    ensures k in Inserted(order, cap, u) <==> Tracked(h + [u], cap, k)
  {
    var more := Inserted(order, cap, u);
    InsertedDistinct(order, cap, u);
    hide Recency, NewerAt;
    if k == u {
      TrackedNext(h, cap, u, k);
    } else if k !in order {
      assert !Tracked(h, cap, k) by { RecencyMembers(h, cap, order, k); }
      UntrackedStays(h, cap, u, k);
    } else if k in more {
      assert Tracked(h, cap, k) by { RecencyMembers(h, cap, order, k); }
      InsertedTracks(h, cap, u, more, k);
    } else {
      OldestLeaves(h, cap, order, u, k);
    }
  }

  lemma RecencyMembers(h: Log, cap: nat, order: seq<nat>, k: nat)
    requires Recency(h, cap, order)
    ensures k in order <==> Tracked(h, cap, k)
  {
  }

  lemma InsertedTracks(h: Log, cap: nat, u: nat, more: seq<nat>, k: nat)
    requires cap > 0 && Distinct(more) && |more| <= cap && k in more && k in Keys(h)
    requires forall i :: 0 <= i < |more| ==> NewerAt(h + [u], more, i)
    ensures Tracked(h + [u], cap, k)
  {
    var i :| 0 <= i < |more| && more[i] == k;
    assert NewerAt(h + [u], more, i);
    TailSize(more, i + 1);
    KeysMore(h, u);
  }

  lemma OldestLeaves(h: Log, cap: nat, order: seq<nat>, u: nat, k: nat)
    requires cap > 0 && Recency(h, cap, order) && u !in order
    requires |order| == cap && k in order && k !in order[1..]
    ensures !Tracked(h + [u], cap, k)
  {
    assert order == [order[0]] + order[1..];
    assert k == order[0] && NewerAt(h, order, 0);
    TailSize(order, 1);
    TrackedNext(h, cap, u, k);
    assert u !in Elements(order[1..]);
  }

  lemma InUseOrder(h: Log, cap: nat, order: seq<nat>)
    requires Recency(h, cap, order)
    ensures forall i, j :: 0 <= i < j < |order| ==> LastSeen(h, order[i]) < LastSeen(h, order[j])
  {
    forall i, j | 0 <= i < j < |order| ensures LastSeen(h, order[i]) < LastSeen(h, order[j]) {
      assert NewerAt(h, order, i);
      assert order[i + 1..][j - i - 1] == order[j];
      assert order[j] in Newer(h, order[i]);
    }
  }

  lemma MovedElements(order: seq<nat>, p: nat)
    requires p < |order|
    ensures Elements(Without(order, p) + [order[p]]) == Elements(order)
  {
    forall k ensures k in Without(order, p) + [order[p]] <==> k in order { InMoved(order, p, k); }
  }
}
