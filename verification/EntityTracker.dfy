/** The bounded tracker of entity_state.py: which entities it remembers after any stream. */
module EntityTracker {
  import opened LeastRecent
  import opened Options
  import opened Ordering

  datatype State = Down | Up | Unknown

  /** An event as the tracker reads it; keys are ranked, vendor and type are part of origin. */
  datatype Event = Event(state: State, key: Option<nat>, time: Option<int>, origin: nat)

  datatype Transition = Transition(time: Option<int>, arrival: int, state: State)

  datatype Slot = Slot(origin: nat, transitions: seq<Transition>)

  /** An accepted event: a known state on a known entity. */
  datatype Update = Update(key: nat, origin: nat, transition: Transition)

  type History = seq<Update>

  ghost predicate UpOrDown(h: History) {
    forall u :: u in h ==> !u.transition.state.Unknown?
  }

  lemma UpOrDownMore(h: History, u: Update)
    requires UpOrDown(h) && !u.transition.state.Unknown?
    ensures UpOrDown(h + [u])
  {
  }

  // -------------------------------------------------------------- the history says

  function LastOf(h: History): Update
    requires h != []
  {
    h[|h| - 1]
  }

  function InitOf(h: History): History
    requires h != []
  {
    h[..|h| - 1]
  }

  function KeyLog(h: History): (log: seq<nat>)
    ensures |log| == |h|
  {
    seq(|h|, i requires 0 <= i < |h| => h[i].key)
  }

  lemma KeyLogMore(h: History, u: Update)
    ensures KeyLog(h + [u]) == KeyLog(h) + [u.key]
  {
  }

  /** k's transitions since it was last inserted. */
  ghost function Since(h: History, cap: nat, k: nat): seq<Transition> {
    if h == [] then []
    else if LastOf(h).key != k then Since(InitOf(h), cap, k)
    else (if Tracked(KeyLog(InitOf(h)), cap, k) then Since(InitOf(h), cap, k) else []) + [LastOf(h).transition]
  }

  /** The event that last inserted k. */
  ghost function InsertedBy(h: History, cap: nat, k: nat): nat {
    if h == [] then 0
    else if LastOf(h).key == k && !Tracked(KeyLog(InitOf(h)), cap, k) then LastOf(h).origin
    else InsertedBy(InitOf(h), cap, k)
  }

  ghost function Insertions(h: History, cap: nat): nat {
    if h == [] then 0
    else Insertions(InitOf(h), cap) + if Tracked(KeyLog(InitOf(h)), cap, LastOf(h).key) then 0 else 1
  }

  function Newest<T>(s: seq<T>, n: int): seq<T> {
    if |s| <= n then s else if n <= 0 then [] else s[|s| - n..]
  }

  // ------------------------------------------------------------------ the tracker

  ghost predicate SlotIs(h: History, cap: nat, limit: int, slots: map<nat, Slot>, k: nat) {
    k in slots && slots[k] == Slot(InsertedBy(h, cap, k), Newest(Since(h, cap, k), limit))
  }

  /** A tracker's whole state, read off the accepted history. */
  ghost predicate Reflects(h: History, cap: nat, limit: int, order: seq<nat>, slots: map<nat, Slot>, dropped: int) {
    && Recency(KeyLog(h), cap, order)
    && slots.Keys == Elements(order)
    && (forall k :: k in order ==> SlotIs(h, cap, limit, slots, k))
    && dropped == Insertions(h, cap) - |order|
  }

  /** One more transition, the oldest one deleted when there are too many. */
  function Recorded(slot: Slot, t: Transition, limit: int): Slot {
    var all := slot.transitions + [t];
    Slot(slot.origin, if |all| > limit then all[1..] else all)
  }

  lemma NewestMore<T>(s: seq<T>, x: T, limit: int)
    ensures var all := Newest(s, limit) + [x];
            Newest(s + [x], limit) == if |all| > limit then all[1..] else all
  {
    if 0 < limit < |s| {
      assert (s[|s| - limit..] + [x])[1..] == (s + [x])[|s| + 1 - limit..];
    } else if 0 < limit == |s| {
      assert s[0..] == s;
    }
  }

  lemma OthersKeep(h: History, cap: nat, limit: int, slots: map<nat, Slot>, u: Update, next: map<nat, Slot>, k: nat)
    requires k != u.key && SlotIs(h, cap, limit, slots, k) && k in next && next[k] == slots[k]
    ensures SlotIs(h + [u], cap, limit, next, k)
  {
    assert InitOf(h + [u]) == h;
  }

  lemma OwnRecorded(h: History, cap: nat, limit: int, u: Update, slot: Slot)
    requires if Tracked(KeyLog(h), cap, u.key)
             then slot == Slot(InsertedBy(h, cap, u.key), Newest(Since(h, cap, u.key), limit))
             else slot == Slot(u.origin, [])
    ensures Recorded(slot, u.transition, limit) ==
            Slot(InsertedBy(h + [u], cap, u.key), Newest(Since(h + [u], cap, u.key), limit))
  {
    assert InitOf(h + [u]) == h;
    if Tracked(KeyLog(h), cap, u.key) {
      NewestMore(Since(h, cap, u.key), u.transition, limit);
    } else {
      assert [] + [u.transition] == [u.transition];
    }
  }

  lemma InsertionsNext(h: History, cap: nat, u: Update)
    ensures Insertions(h + [u], cap) == Insertions(h, cap) + if Tracked(KeyLog(h), cap, u.key) then 0 else 1
  {
    assert InitOf(h + [u]) == h;
  }

  lemma MoveReflects(h: History, cap: nat, limit: int, order: seq<nat>, slots: map<nat, Slot>, dropped: int,
                     u: Update, p: nat)
    requires cap > 0 && Reflects(h, cap, limit, order, slots, dropped) && p < |order| && order[p] == u.key
    ensures u.key in slots
    ensures Reflects(h + [u], cap, limit, Without(order, p) + [u.key],
                     slots[u.key := Recorded(slots[u.key], u.transition, limit)], dropped)
  {
    assert u.key in order && SlotIs(h, cap, limit, slots, u.key);
    KeyLogMore(h, u);
    MovedIsRecency(KeyLog(h), cap, order, u.key, p);
    InsertionsNext(h, cap, u);
    RecencyMembers(KeyLog(h), cap, order, u.key);
    OwnRecorded(h, cap, limit, u, slots[u.key]);
    MovedElements(order, p);
    RecordedSlots(h, cap, limit, order, slots, u);
    hide Recency, Recorded, SlotIs, Elements;
    assert forall k :: k in Elements(order) <==> k in slots.Keys;
    var next := slots[u.key := Recorded(slots[u.key], u.transition, limit)];
    assert next.Keys == slots.Keys;
    forall k | k in Without(order, p) + [u.key] ensures SlotIs(h + [u], cap, limit, next, k) {
      InMoved(order, p, k);
    }
  }

  lemma RecordedSlots(h: History, cap: nat, limit: int, order: seq<nat>, slots: map<nat, Slot>, u: Update)
    requires u.key in order && u.key in slots && forall k :: k in order ==> SlotIs(h, cap, limit, slots, k)
    requires Recorded(slots[u.key], u.transition, limit) ==
             Slot(InsertedBy(h + [u], cap, u.key), Newest(Since(h + [u], cap, u.key), limit))
    ensures forall k :: k in order ==>
              SlotIs(h + [u], cap, limit, slots[u.key := Recorded(slots[u.key], u.transition, limit)], k)
  {
    var next := slots[u.key := Recorded(slots[u.key], u.transition, limit)];
    forall k | k in order ensures SlotIs(h + [u], cap, limit, next, k) {
      assert SlotIs(h, cap, limit, slots, k);
      if k != u.key { OthersKeep(h, cap, limit, slots, u, next, k); }
    }
  }

  lemma InsertReflects(h: History, cap: nat, limit: int, order: seq<nat>, slots: map<nat, Slot>, dropped: int,
                       u: Update, kept: seq<nat>, left: map<nat, Slot>)
    requires cap > 0 && Reflects(h, cap, limit, order, slots, dropped) && u.key !in order
    requires kept == if |order| == cap then order[1..] else order
    requires left == if |order| == cap then slots - {order[0]} else slots
    ensures Reflects(h + [u], cap, limit, kept + [u.key],
                     left[u.key := Recorded(Slot(u.origin, []), u.transition, limit)],
                     if |order| == cap then dropped + 1 else dropped)
  {
    var more := kept + [u.key];
    var next := left[u.key := Recorded(Slot(u.origin, []), u.transition, limit)];
    KeyLogMore(h, u);
    InsertedIsRecency(KeyLog(h), cap, order, u.key);
    InsertionsNext(h, cap, u);
    OwnRecorded(h, cap, limit, u, Slot(u.origin, []));
    forall k ensures k in more <==> k in next { KeptAndLeft(order, kept, slots, left, cap, k); }
    forall k | k in more ensures SlotIs(h + [u], cap, limit, next, k) {
      if k != u.key {
        KeptAndLeft(order, kept, slots, left, cap, k);
        OthersKeep(h, cap, limit, slots, u, next, k);
      }
    }
  }

  lemma KeptAndLeft(order: seq<nat>, kept: seq<nat>, slots: map<nat, Slot>, left: map<nat, Slot>, cap: nat, k: nat)
    requires Distinct(order) && |order| <= cap && cap > 0 && slots.Keys == Elements(order)
    requires kept == if |order| == cap then order[1..] else order
    requires left == if |order| == cap then slots - {order[0]} else slots
    ensures k in kept <==> k in left
    ensures k in kept ==> k in order
  {
    assert k in order <==> k in slots;
    if |order| == cap {
      assert order == [order[0]] + order[1..];
      assert order[0] !in order[1..];
    }
  }

  lemma Shape(h: History, cap: nat, limit: int, order: seq<nat>, slots: map<nat, Slot>, dropped: int)
    requires Reflects(h, cap, limit, order, slots, dropped)
    ensures |order| <= cap && forall k :: k in slots <==> k in order
  {
    assert forall k :: k in slots <==> k in slots.Keys;
  }

  class Tracker {
    const maxEntities: nat
    const maxTransitions: int
    var order: seq<nat>
    var slots: map<nat, Slot>
    var dropped: nat
    ghost var history: History

    ghost predicate Valid()
      reads this
    {
      maxEntities > 0 && UpOrDown(history) && Reflects(history, maxEntities, maxTransitions, order, slots, dropped)
    }

    constructor (maxEntities: nat, maxTransitions: int)
      requires maxEntities > 0
      ensures Valid() && history == [] && order == [] && dropped == 0
      ensures this.maxEntities == maxEntities && this.maxTransitions == maxTransitions
    {
      this.maxEntities, this.maxTransitions := maxEntities, maxTransitions;
      order, slots, dropped, history := [], map[], 0, [];
    }

    /** `add` */
    method Add(ev: Event, arrival: int) returns (key: Option<nat>)
      requires Valid()
      modifies this
      ensures Valid()
      ensures key == if ev.state.Unknown? then None else ev.key
      ensures history == old(history) + match key {
                           case None => []
                           case Some(k) => [Update(k, ev.origin, Transition(ev.time, arrival, ev.state))]
                         }
      ensures key.None? ==> order == old(order) && slots == old(slots) && dropped == old(dropped)
    {
      if ev.state.Unknown? || ev.key.None? {
        return None;
      }
      var k := ev.key.value;
      var t := Transition(ev.time, arrival, ev.state);
      if k !in slots {
        Open(k, ev.origin, t);
      } else {
        Touch(k, ev.origin, t);
      }
      return Some(k);
    }

    /** A new entity, evicting the least recently updated one of a full tracker. */
    method Open(k: nat, origin: nat, t: Transition)
      requires Valid() && k !in slots && !t.state.Unknown?
      modifies this
      ensures Valid() && history == old(history) + [Update(k, origin, t)]
    {
      ghost var u := Update(k, origin, t);
      Shape(history, maxEntities, maxTransitions, order, slots, dropped);
      UpOrDownMore(history, u);
      hide *;
      if |order| >= maxEntities {
        slots := slots - {order[0]};
        order := order[1..];
        dropped := dropped + 1;
      }
      InsertReflects(history, maxEntities, maxTransitions, old(order), old(slots), old(dropped), u, order, slots);
      slots := slots[k := Recorded(Slot(origin, []), t, maxTransitions)];
      order := order + [k];
      history := history + [u];
    }

    /** A tracked entity moves to the end. */
    method Touch(k: nat, origin: nat, t: Transition)
      requires Valid() && k in slots && !t.state.Unknown?
      modifies this
      ensures Valid() && history == old(history) + [Update(k, origin, t)]
    {
      ghost var u := Update(k, origin, t);
      Shape(history, maxEntities, maxTransitions, order, slots, dropped);
      UpOrDownMore(history, u);
      hide *;
      var p :| 0 <= p < |order| && order[p] == k;
      MoveReflects(history, maxEntities, maxTransitions, order, slots, dropped, u, p);
      slots := slots[k := Recorded(slots[k], t, maxTransitions)];
      order := Without(order, p) + [k];
      history := history + [u];
    }
  }

  /** What a tracker remembers after any history: the cap most recently updated entities, oldest
      first, each with the newest of its transitions since it was last inserted; and it has
      dropped the rest of the insertions. */
  lemma TrackerRemembers(t: Tracker)
    requires t.Valid()
    ensures forall k :: k in t.order <==> Tracked(KeyLog(t.history), t.maxEntities, k)
    ensures forall i, j :: 0 <= i < j < |t.order| ==>
              LastSeen(KeyLog(t.history), t.order[i]) < LastSeen(KeyLog(t.history), t.order[j])
    ensures forall k :: k in t.order ==>
              k in t.slots && t.slots[k].transitions == Newest(Since(t.history, t.maxEntities, k), t.maxTransitions)
    ensures t.dropped + |t.order| == Insertions(t.history, t.maxEntities)
  {
    InUseOrder(KeyLog(t.history), t.maxEntities, t.order);
    forall k | k in t.order
      ensures k in t.slots && t.slots[k].transitions == Newest(Since(t.history, t.maxEntities, k), t.maxTransitions)
    {
      assert SlotIs(t.history, t.maxEntities, t.maxTransitions, t.slots, k);
    }
  }
}
