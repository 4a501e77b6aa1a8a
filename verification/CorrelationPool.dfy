/** The bounded intake of the correlator (correlate.py): repeats collapse to the first and last
    event of their key, and if that is not enough the least severe ones go. */
module CorrelationPool {
  import opened Ordering

  /** An event as the pool sees it: its (host, type, entity, state) key and its severity rank. */
  datatype Event = Event(key: nat, severity: nat, payload: nat)

  predicate IsFirst(events: seq<Event>, i: nat)
    requires i < |events|
  {
    forall j :: 0 <= j < i ==> events[j].key != events[i].key
  }

  predicate IsLast(events: seq<Event>, i: nat)
    requires i < |events|
  {
    forall j :: i < j < |events| ==> events[j].key != events[i].key
  }

  /** The indices that survive the collapsing of repeats. */
  ghost predicate Survives(events: seq<Event>, i: nat) {
    i < |events| && (IsFirst(events, i) || IsLast(events, i))
  }

  ghost predicate FirstSeen(events: seq<Event>, at: nat, k: nat, n: nat)
    requires n <= |events|
  {
    at < n && events[at].key == k && IsFirst(events, at)
  }

  /** The last of the first n events with key k. */
  ghost predicate LastSeen(events: seq<Event>, at: nat, k: nat, n: nat)
    requires n <= |events|
  {
    at < n && events[at].key == k && forall j :: at < j < n ==> events[j].key != k
  }

  lemma LastSeenNext(events: seq<Event>, last: map<nat, nat>, i: nat)
    requires i < |events| && forall k :: k in last ==> LastSeen(events, last[k], k, i)
    ensures forall k :: k in last && k != events[i].key ==> LastSeen(events, last[k], k, i + 1)
    ensures LastSeen(events, i, events[i].key, i + 1)
  {
  }

  /** The index of the first and of the last event of every key, in order. */
  method FirstAndLast(events: seq<Event>) returns (keep: seq<nat>)
    ensures Ascending(keep)
    ensures forall i: nat :: i in keep <==> Survives(events, i)
  {
    var first: map<nat, nat>, last: map<nat, nat> := map[], map[];
    for i := 0 to |events|
      invariant forall j :: 0 <= j < i ==> events[j].key in first && events[j].key in last
      invariant forall k :: k in first ==> FirstSeen(events, first[k], k, i)
      invariant forall k :: k in last ==> LastSeen(events, last[k], k, i)
    {
      var k := events[i].key;
      LastSeenNext(events, last, i);
      if k !in first {
        first := first[k := i];
      }
      last := last[k := i];
    }
    var chosen := (set k | k in first :: first[k]) + set k | k in last :: last[k];
    EndsChosen(events, first, last, chosen);
    keep := SortedSet(chosen);
  }

  lemma EndsChosen(events: seq<Event>, first: map<nat, nat>, last: map<nat, nat>, chosen: set<nat>)
    requires forall j :: 0 <= j < |events| ==> events[j].key in first && events[j].key in last
    requires forall k :: k in first ==> first[k] < |events| && events[first[k]].key == k && IsFirst(events, first[k])
    requires forall k :: k in last ==> last[k] < |events| && events[last[k]].key == k && IsLast(events, last[k])
    requires chosen == (set k | k in first :: first[k]) + set k | k in last :: last[k]
    ensures forall i: nat :: i in chosen <==> Survives(events, i)
  {
    forall i: nat | Survives(events, i) ensures i in chosen {
      var k := events[i].key;
      assert IsFirst(events, i) ==> first[k] == i;
      assert IsLast(events, i) ==> last[k] == i;
    }
  }

  // --------------------------------------------------------- the severity cut

  datatype Rank = Rank(severity: nat, at: nat)

  predicate RankLe(a: Rank, b: Rank) {
    a.severity < b.severity || (a.severity == b.severity && a.at <= b.at)
  }

  const BY_RANK: (Rank, Rank) -> bool := (a: Rank, b: Rank) => RankLe(a, b)

  ghost predicate Indices(keep: seq<nat>, events: seq<Event>) {
    Ascending(keep) && forall i :: i in keep ==> i < |events|
  }

  ghost predicate MoreSevere(events: seq<Event>, a: nat, b: nat)
    requires a < |events| && b < |events|
  {
    events[a].severity < events[b].severity || (events[a].severity == events[b].severity && a < b)
  }

  function Ranks(keep: seq<nat>, events: seq<Event>): seq<Rank>
    requires forall i :: i in keep ==> i < |events|
  {
    seq(|keep|, n requires 0 <= n < |keep| => assert keep[n] in keep; Rank(events[keep[n]].severity, keep[n]))
  }

  lemma RanksDistinct(keep: seq<nat>, events: seq<Event>)
    requires Indices(keep, events)
    ensures Distinct(Ranks(keep, events))
    ensures forall r :: r in Ranks(keep, events) <==> r.at in keep && r.severity == events[r.at].severity
  {
    var ranks := Ranks(keep, events);
    forall r ensures r in ranks <==> r.at in keep && r.severity == events[r.at].severity {
      if r.at in keep && r.severity == events[r.at].severity {
        var n :| 0 <= n < |keep| && keep[n] == r.at;
        assert ranks[n] == r;
      }
    }
  }

  /** The `room` most severe of the kept indices, earliest first among equals, back in order. */
  method CutTo(events: seq<Event>, keep: seq<nat>, room: nat) returns (cut: seq<nat>)
    requires Indices(keep, events) && room < |keep|
    ensures Indices(cut, events) && |cut| == room
    ensures forall i :: i in cut ==> i in keep
    ensures forall i, j :: i in cut && j in keep && j !in cut ==> MoreSevere(events, i, j)
  {
    var ranked := StableSort(BY_RANK, Ranks(keep, events));
    assert Total(BY_RANK);
    StableSortSorts(BY_RANK, Ranks(keep, events));
    RanksDistinct(keep, events);
    SameElements(ranked, Ranks(keep, events));
    DistinctByMultiset(Ranks(keep, events), ranked);
    var top := set r | r in ranked[..room] :: r.at;
    cut := SortedSet(top);
    TopSize(ranked[..room], events, cut);
    forall i, j | i in cut && j in keep && j !in cut ensures MoreSevere(events, i, j) {
      RankedApart(events, keep, ranked, room, i, j);
    }
  }

  lemma RankedApart(events: seq<Event>, keep: seq<nat>, ranked: seq<Rank>, room: nat, i: nat, j: nat)
    requires forall k :: k in keep ==> k < |events|
    requires SortedBy(BY_RANK, ranked) && room <= |ranked|
    requires forall r :: r in ranked <==> r.at in keep && r.severity == events[r.at].severity
    requires exists r :: r in ranked[..room] && r.at == i
    requires j in keep && !exists r :: r in ranked[..room] && r.at == j
    ensures i in keep && MoreSevere(events, i, j)
  {
    var r :| r in ranked[..room] && r.at == i;
    var a :| 0 <= a < room && ranked[a] == r;
    var q := Rank(events[j].severity, j);
    assert q in ranked && r in ranked;
    var b :| 0 <= b < |ranked| && ranked[b] == q;
    assert forall n :: 0 <= n < room ==> ranked[n] in ranked[..room];
    assert BY_RANK(ranked[a], ranked[b]);
  }

  lemma TopSize(top: seq<Rank>, events: seq<Event>, cut: seq<nat>)
    requires Distinct(top) && Ascending(cut)
    requires forall r :: r in top ==> r.at < |events| && r.severity == events[r.at].severity
    requires forall i :: i in cut <==> exists r :: r in top && r.at == i
    ensures |cut| == |top|
  {
    var ats := seq(|top|, n requires 0 <= n < |top| => top[n].at);
    forall i, j | 0 <= i < j < |ats| ensures ats[i] != ats[j] {
      assert top[i] in top && top[j] in top;
    }
    DistinctSize(ats);
    DistinctSize(cut);
    forall i ensures i in Elements(ats) <==> i in Elements(cut) {
      if i in cut {
        var r :| r in top && r.at == i;
        var n :| 0 <= n < |top| && top[n] == r;
        assert ats[n] == i;
      }
      if i in ats {
        var n :| 0 <= n < |ats| && ats[n] == i;
        assert top[n] in top;
      }
    }
    assert Elements(ats) == Elements(cut);
  }

  function Select<T>(s: seq<T>, at: seq<nat>): seq<T>
    requires forall i :: i in at ==> i < |s|
  {
    seq(|at|, n requires 0 <= n < |at| => assert at[n] in at; s[at[n]])
  }

  // ------------------------------------------------------------------ history

  /** The buffer is the history at ascending positions: arrival order is kept. */
  ghost predicate Reflects(history: seq<Event>, buf: seq<Event>, at: seq<nat>) {
    && |at| == |buf| && Ascending(at)
    && forall i :: 0 <= i < |buf| ==> at[i] < |history| && history[at[i]] == buf[i]
  }

  /** The first and the latest event of every key ever added are still there. */
  ghost predicate KeepsEnds(history: seq<Event>, at: seq<nat>) {
    forall i: nat :: Survives(history, i) ==> i in at
  }

  lemma AddKeeps(history: seq<Event>, buf: seq<Event>, at: seq<nat>, ev: Event)
    requires Reflects(history, buf, at)
    ensures Reflects(history + [ev], buf + [ev], at + [|history|])
    ensures KeepsEnds(history, at) ==> KeepsEnds(history + [ev], at + [|history|])
  {
    var now := history + [ev];
    if KeepsEnds(history, at) {
      forall i: nat | Survives(now, i) ensures i in at + [|history|] {
        if i < |history| {
          assert forall j :: 0 <= j < |history| ==> history[j] == now[j];
          assert Survives(history, i);
        }
      }
    }
  }

  lemma SelectKeeps(history: seq<Event>, buf: seq<Event>, at: seq<nat>, keep: seq<nat>)
    requires Reflects(history, buf, at) && Indices(keep, buf)
    ensures Reflects(history, Select(buf, keep), Select(at, keep))
  {
    forall n | 0 <= n < |keep| ensures keep[n] < |buf| { assert keep[n] in keep; }
  }

  /** Collapsing keeps the ends of every key, whenever it happens. */
  lemma CollapseKeepsEnds(history: seq<Event>, buf: seq<Event>, at: seq<nat>, keep: seq<nat>)
    requires Reflects(history, buf, at) && Indices(keep, buf) && KeepsEnds(history, at)
    requires forall i: nat :: Survives(buf, i) ==> i in keep
    ensures KeepsEnds(history, Select(at, keep))
  {
    forall p: nat | Survives(history, p) ensures p in Select(at, keep) {
      var i :| 0 <= i < |at| && at[i] == p;
      forall j | 0 <= j < |buf| ensures buf[j] == history[at[j]] && (j < i ==> at[j] < p) && (j > i ==> at[j] > p) {}
      assert Survives(buf, i);
      var n :| 0 <= n < |keep| && keep[n] == i;
      assert Select(at, keep)[n] == p;
    }
  }

  /** What bounding to `room` keeps: every survivor, or the most severe of them. */
  ghost predicate Bounded(events: seq<Event>, room: nat, keep: seq<nat>, dropped: nat, collapsed: nat) {
    && Indices(keep, events) && |keep| <= room
    && |events| == |keep| + dropped + collapsed
    && (forall i :: i in keep ==> Survives(events, i))
    && (dropped == 0 ==> forall i: nat :: Survives(events, i) ==> i in keep)
    && (dropped > 0 ==> |keep| == room)
    && (forall i: nat, j: nat :: i in keep && Survives(events, j) && j !in keep ==> MoreSevere(events, i, j))
  }

  method BoundTo(events: seq<Event>, room: nat) returns (keep: seq<nat>, dropped: nat, collapsed: nat)
    ensures Bounded(events, room, keep, dropped, collapsed)
  {
    keep := FirstAndLast(events);
    AscendingShort(keep, |events|);
    collapsed := |events| - |keep|;
    dropped := 0;
    if |keep| > room {
      dropped := |keep| - room;
      keep := CutTo(events, keep, room);
    }
  }

  lemma AscendingShort(s: seq<nat>, n: nat)
    requires Ascending(s) && forall i :: i in s ==> i < n
    ensures |s| <= n
  {
    forall i: nat | i < |s| ensures i <= s[i] { AscendingAtLeast(s, i); }
    if s != [] { assert s[|s| - 1] in s; }
  }

  lemma {:induction false} AscendingAtLeast(s: seq<nat>, i: nat)
    requires Ascending(s) && i < |s|
    ensures i <= s[i]
  {
    if i > 0 { AscendingAtLeast(s, i - 1); }
  }

  class CorrelationPool {
    const maxEvents: nat
    var buf: seq<Event>
    var collapsed: nat
    var dropped: nat
    ghost var history: seq<Event>
    ghost var at: seq<nat>

    ghost predicate Valid()
      reads this
    {
      && |history| == |buf| + collapsed + dropped
      && |buf| <= 2 * maxEvents
      && Reflects(history, buf, at)
      && (dropped == 0 ==> KeepsEnds(history, at))
    }

    constructor (maxEvents: nat)
      ensures Valid() && history == [] && this.maxEvents == maxEvents
    {
      this.maxEvents := maxEvents;
      buf, collapsed, dropped := [], 0, 0;
      history, at := [], [];
    }

    method Add(ev: Event)
      requires Valid()
      modifies this
      ensures Valid() && history == old(history) + [ev]
      ensures |old(buf)| < 2 * maxEvents ==>
                buf == old(buf) + [ev] && collapsed == old(collapsed) && dropped == old(dropped)
      ensures |old(buf)| == 2 * maxEvents ==> exists keep, d, c ::
                Bounded(old(buf) + [ev], maxEvents * 3 / 2, keep, d, c)
                && buf == Select(old(buf) + [ev], keep)
                && dropped == old(dropped) + d && collapsed == old(collapsed) + c
    {
      AddKeeps(history, buf, at, ev);
      buf := buf + [ev];
      history, at := history + [ev], at + [|history|];
      if |buf| > 2 * maxEvents {
        Shrink(maxEvents * 3 / 2);
      }
    }

    /** `_compact` and the second half of `bound_events` */
    method Shrink(room: nat)
      requires |history| == |buf| + collapsed + dropped && Reflects(history, buf, at)
      requires dropped == 0 ==> KeepsEnds(history, at)
      requires room <= 2 * maxEvents
      modifies `buf, `collapsed, `dropped, `at
      ensures Valid() && |buf| <= room
      ensures exists keep, d, c ::
                Bounded(old(buf), room, keep, d, c)
                && buf == Select(old(buf), keep) && dropped == old(dropped) + d && collapsed == old(collapsed) + c
    {
      var keep, d, c := BoundTo(buf, room);
      SelectKeeps(history, buf, at, keep);
      if d == 0 && dropped == 0 { CollapseKeepsEnds(history, buf, at, keep); }
      collapsed, dropped := collapsed + c, dropped + d;
      at := Select(at, keep);
      buf := Select(buf, keep);
    }

    /** `events()`: a buffer that fits is handed out as it is. */
    method Events() returns (kept: seq<Event>)
      requires Valid()
      modifies `buf, `collapsed, `dropped, `at
      ensures Valid() && kept == buf && |buf| <= maxEvents
      ensures |old(buf)| <= maxEvents ==> buf == old(buf) && dropped == old(dropped) && collapsed == old(collapsed)
      ensures |old(buf)| > maxEvents ==> exists keep, d, c ::
                Bounded(old(buf), maxEvents, keep, d, c)
                && buf == Select(old(buf), keep) && dropped == old(dropped) + d && collapsed == old(collapsed) + c
    {
      if |buf| > maxEvents {
        Shrink(maxEvents);
      }
      kept := buf;
    }
  }
}
