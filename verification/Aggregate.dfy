/** The single bounded pass of analyzer.py against a sort of the whole stream. */
module Aggregate {
  import opened Options
  import opened Ordering

  const SEVERITIES: nat := 5
  const CONFIG_RESERVE: nat := 50
  const DATETIME_MIN: int := 0
  const DATETIME_MAX: int := 315_537_897_599_999_999

  /** A classified event with its arrival number: severity is the rank of one of the five labels,
      `commit` is the config category and host 0 the empty hostname. The stamp is read twice by
      different code: `time` is what `event_time` makes of it, in microseconds, `norm` the whole
      second of UTC it is normalized to, and `raw` ranks its text. */
  datatype Event = Event(at: nat, severity: nat, time: Option<int>, norm: Option<int>, raw: int, commit: bool,
                         host: nat)

  ghost predicate IsStream(events: seq<Event>) {
    forall i :: 0 <= i < |events| ==> events[i].at == i && events[i].severity < SEVERITIES
  }

  // ---------------------------------------------------------- the full sort

  /** The heap key: a stamp that cannot be read counts as older than any other. */
  function NewestKey(e: Event): int {
    if e.time.Some? then e.time.value else DATETIME_MIN
  }

  const ARRIVAL: (Event, Event) -> bool := (a: Event, b: Event) => a.at <= b.at
  const NEWEST_FIRST: (Event, Event) -> bool := (a: Event, b: Event) => NewestKey(b) <= NewestKey(a)
  const BY_SEVERITY: (Event, Event) -> bool := (a: Event, b: Event) => a.severity <= b.severity

  /** The two stable sorts: newest first, then bucketed by severity. */
  function FullSort(events: seq<Event>): seq<Event> {
    StableSort(BY_SEVERITY, StableSort(NEWEST_FIRST, events))
  }

  /** entry[:2] comparison of the heaps: later stamp, then earlier arrival */
  predicate Beats(a: Event, b: Event) {
    NewestKey(b) < NewestKey(a) || (NewestKey(a) == NewestKey(b) && a.at <= b.at)
  }

  const BEATS: (Event, Event) -> bool := (a: Event, b: Event) => Beats(a, b)

  predicate Ranked(a: Event, b: Event) {
    a.severity < b.severity || (a.severity == b.severity && Beats(a, b))
  }

  const RANKED: (Event, Event) -> bool := (a: Event, b: Event) => Ranked(a, b)

  lemma OrdersTotal()
    ensures Total(BEATS) && Total(RANKED) && Total(NEWEST_FIRST) && Total(BY_SEVERITY)
  {
  }

  /** The two stable sorts leave no tie open: severity, then stamp, then arrival. */
  lemma FullSortRanked(events: seq<Event>)
    requires IsStream(events)
    ensures SortedBy(RANKED, FullSort(events)) && multiset(FullSort(events)) == multiset(events)
  {
    OrdersTotal();
    StableSortStable(NEWEST_FIRST, ARRIVAL, events);
    StableSortSorts(NEWEST_FIRST, events);
    var once := StableSort(NEWEST_FIRST, events);
    forall i, j | 0 <= i < j < |once| ensures BEATS(once[i], once[j]) {
      assert NEWEST_FIRST(once[i], once[j]);
    }
    StableSortStable(BY_SEVERITY, BEATS, once);
    StableSortSorts(BY_SEVERITY, once);
    var twice := StableSort(BY_SEVERITY, once);
    forall i, j | 0 <= i < j < |twice| ensures RANKED(twice[i], twice[j]) {
      assert BY_SEVERITY(twice[i], twice[j]);
    }
  }

  // -------------------------------------------------------------- the heaps

  /** The cap best of a list, best first. */
  function Best(events: seq<Event>, cap: nat): seq<Event> {
    Take(StableSort(BEATS, events), cap)
  }

  lemma {:induction false} InsertSize(x: Event, s: seq<Event>)
    ensures |Insert(BEATS, x, s)| == |s| + 1
  {
    if |s| > 0 && !BEATS(x, s[0]) { InsertSize(x, s[1..]); }
  }

  /** Only the cap best matter when one more arrives. */
  lemma {:induction false} InsertTake(x: Event, s: seq<Event>, cap: nat)
    ensures Take(Insert(BEATS, x, Take(s, cap)), cap) == Take(Insert(BEATS, x, s), cap)
  {
    if cap == 0 || |s| <= cap {
      InsertSize(x, Take(s, cap));
      InsertSize(x, s);
    } else if BEATS(x, s[0]) {
      assert ([x] + s)[..cap] == ([x] + s[..cap])[..cap];
    } else {
      InsertTake(x, s[1..], cap - 1);
      InsertSize(x, s);
      InsertSize(x, s[..cap]);
      InsertSize(x, s[1..]);
      InsertSize(x, s[1..][..cap - 1]);
      assert s[..cap][1..] == s[1..][..cap - 1];
      var a, b := Insert(BEATS, x, s[1..]), Insert(BEATS, x, s[1..][..cap - 1]);
      assert ([s[0]] + a)[..cap] == [s[0]] + a[..cap - 1];
      assert ([s[0]] + b)[..cap] == [s[0]] + b[..cap - 1];
    }
  }

  lemma {:induction false} InsertLast(x: Event, s: seq<Event>)
    requires forall y :: y in s ==> !BEATS(x, y)
    ensures Insert(BEATS, x, s) == s + [x]
  {
    if |s| > 0 {
      assert s[0] in s && forall y :: y in s[1..] ==> y in s;
      InsertLast(x, s[1..]);
    }
  }

  lemma {:induction false} InsertBeforeLast(x: Event, s: seq<Event>, last: Event)
    requires BEATS(x, last)
    ensures Insert(BEATS, x, s + [last]) == Insert(BEATS, x, s) + [last]
  {
    if |s| == 0 {
      assert s + [last] == [last];
    } else {
      assert (s + [last])[1..] == s[1..] + [last];
      if !BEATS(x, s[0]) { InsertBeforeLast(x, s[1..], last); }
    }
  }

  /** In a full heap a new entry replaces the least one, or is dropped. */
  lemma PushIntoFull(x: Event, items: seq<Event>)
    requires SortedBy(BEATS, items) && items != []
    ensures var n := |items|;
            Take(Insert(BEATS, x, items), n) ==
            if Beats(x, items[n - 1]) then Insert(BEATS, x, items[..n - 1]) else items
  {
    var n := |items|;
    if Beats(x, items[n - 1]) {
      assert items == items[..n - 1] + [items[n - 1]];
      InsertBeforeLast(x, items[..n - 1], items[n - 1]);
      InsertSize(x, items[..n - 1]);
    } else {
      forall y | y in items ensures !BEATS(x, y) {
        var i :| 0 <= i < n && items[i] == y;
        assert i < n - 1 ==> BEATS(items[i], items[n - 1]);
      }
      InsertLast(x, items);
    }
  }

  ghost predicate Arrivals(events: seq<Event>) {
    forall i, j :: 0 <= i < j < |events| ==> events[i].at < events[j].at
  }

  lemma ArrivalsNoTies(events: seq<Event>, sorted: seq<Event>)
    requires Arrivals(events) && multiset(sorted) == multiset(events)
    ensures NoTies(BEATS, sorted) && NoTies(RANKED, sorted)
  {
    SameElements(sorted, events);
    forall i, j | 0 <= i < |sorted| && 0 <= j < |sorted| && sorted[i].at == sorted[j].at
      ensures sorted[i] == sorted[j]
    {
      assert sorted[i] in events && sorted[j] in events;
    }
  }

  /** Inserting the newest arrival into the sorted earlier ones sorts them all. */
  lemma AppendSort(events: seq<Event>, e: Event)
    requires Arrivals(events + [e])
    ensures StableSort(BEATS, events + [e]) == Insert(BEATS, e, StableSort(BEATS, events))
  {
    OrdersTotal();
    var s := StableSort(BEATS, events);
    StableSortSorts(BEATS, events);
    InsertSorts(BEATS, e, s);
    InsertKeeps(BEATS, e, s);
    StableSortSorts(BEATS, events + [e]);
    ArrivalsNoTies(events + [e], StableSort(BEATS, events + [e]));
    SortedUnique(BEATS, StableSort(BEATS, events + [e]), Insert(BEATS, e, s));
  }

  lemma BestSorted(events: seq<Event>, cap: nat)
    ensures SortedBy(BEATS, Best(events, cap)) && |Best(events, cap)| == if |events| < cap then |events| else cap
  {
    OrdersTotal();
    StableSortSorts(BEATS, events);
    SameElements(StableSort(BEATS, events), events);
  }

  /** `heapq` keeps its least entry in front; here the heap is kept best first, the least last. */
  class NewestHeap {
    const cap: nat
    var items: seq<Event>
    ghost var pushed: seq<Event>

    ghost predicate Valid()
      reads this
    {
      cap > 0 && Arrivals(pushed) && items == Best(pushed, cap)
    }

    constructor (cap: nat)
      requires cap > 0
      ensures Valid() && pushed == [] && this.cap == cap
    {
      this.cap := cap;
      items, pushed := [], [];
    }

    /** `_push_newest` */
    method PushNewest(e: Event)
      requires Valid() && Arrivals(pushed + [e])
      modifies this
      ensures Valid() && pushed == old(pushed) + [e]
    {
      AppendSort(pushed, e);
      InsertTake(e, StableSort(BEATS, pushed), cap);
      InsertSize(e, items);
      BestSorted(pushed, cap);
      if |items| < cap {
        items := Insert(BEATS, e, items);
      } else {
        PushIntoFull(e, items);
        if Beats(e, items[|items| - 1]) {
          items := Insert(BEATS, e, items[..|items| - 1]);
        }
      }
      pushed := pushed + [e];
    }
  }

  // ----------------------------------------------------- the buckets together

  /** The events of one severity, in arrival order. */
  function Bucket(events: seq<Event>, severity: nat): seq<Event> {
    if |events| == 0 then []
    else
      var n := |events| - 1;
      Bucket(events[..n], severity) + if events[n].severity == severity then [events[n]] else []
  }

  lemma BucketAppend(events: seq<Event>, e: Event, severity: nat)
    ensures Bucket(events + [e], severity) == Bucket(events, severity) + if e.severity == severity then [e] else []
  {
    assert (events + [e])[..|events|] == events;
  }

  /** The sorted buckets of severities from a given rank on, each whole. */
  function Sorted(events: seq<Event>, from: nat): seq<Event>
    decreases SEVERITIES - from
  {
    if from >= SEVERITIES then [] else StableSort(BEATS, Bucket(events, from)) + Sorted(events, from + 1)
  }

  lemma {:induction false} BucketIs(events: seq<Event>, severity: nat)
    requires Arrivals(events)
    ensures Arrivals(Bucket(events, severity))
    ensures forall e :: e in Bucket(events, severity) <==> e in events && e.severity == severity
  {
    if |events| > 0 {
      var n := |events| - 1;
      assert events == events[..n] + [events[n]];
      BucketIs(events[..n], severity);
      var before := Bucket(events[..n], severity);
      forall i | 0 <= i < |before| ensures before[i].at < events[n].at {
        assert before[i] in before;
        var k :| 0 <= k < n && events[..n][k] == before[i];
      }
    }
  }

  /** The five sorted buckets in a row hold every event once, in rank order. */
  lemma {:induction false} SortedIs(events: seq<Event>, from: nat)
    requires Arrivals(events) && forall e :: e in events ==> e.severity < SEVERITIES
    ensures SortedBy(RANKED, Sorted(events, from)) && Distinct(Sorted(events, from))
    ensures forall e :: e in Sorted(events, from) <==> e in events && e.severity >= from
    decreases SEVERITIES - from
  {
    if from < SEVERITIES {
      SortedIs(events, from + 1);
      SortedBucket(events, from);
      RankedConcat(StableSort(BEATS, Bucket(events, from)), Sorted(events, from + 1), from);
    }
  }

  lemma SortedBucket(events: seq<Event>, severity: nat)
    requires Arrivals(events)
    ensures var s := StableSort(BEATS, Bucket(events, severity));
            SortedBy(BEATS, s) && Distinct(s) && forall e :: e in s <==> e in events && e.severity == severity
  {
    var b := Bucket(events, severity);
    BucketIs(events, severity);
    OrdersTotal();
    StableSortSorts(BEATS, b);
    SameElements(StableSort(BEATS, b), b);
    DistinctByMultiset(b, StableSort(BEATS, b));
  }

  lemma RankedConcat(a: seq<Event>, b: seq<Event>, severity: nat)
    requires SortedBy(BEATS, a) && SortedBy(RANKED, b) && Distinct(a) && Distinct(b)
    requires forall e :: e in a ==> e.severity == severity
    requires forall e :: e in b ==> e.severity > severity
    ensures SortedBy(RANKED, a + b) && Distinct(a + b)
  {
    var c := a + b;
    forall i, j | 0 <= i < j < |c| ensures RANKED(c[i], c[j]) && c[i] != c[j] {
      if j < |a| {
        assert BEATS(a[i], a[j]) && a[i] in a && a[j] in a;
      } else if i >= |a| {
        assert RANKED(b[i - |a|], b[j - |a|]) && b[i - |a|] != b[j - |a|];
      } else {
        assert a[i] in a && b[j - |a|] in b;
      }
    }
  }

  /** Bucketing and sorting each bucket is the full sort. */
  lemma BucketsSortFully(events: seq<Event>)
    requires IsStream(events)
    ensures Sorted(events, 0) == FullSort(events)
  {
    assert Arrivals(events) && Distinct(events);
    SortedIs(events, 0);
    DistinctSame(Sorted(events, 0), events);
    FullSortRanked(events);
    ArrivalsNoTies(events, Sorted(events, 0));
    SortedUnique(RANKED, Sorted(events, 0), FullSort(events));
  }

  /** The final loop: concatenate the heaps, best severity first, until there is enough. */
  function Gather(events: seq<Event>, from: nat, k: nat, top: seq<Event>): seq<Event>
    decreases SEVERITIES - from
  {
    if from >= SEVERITIES then top
    else
      var more := top + Best(Bucket(events, from), k);
      if |more| >= k then more else Gather(events, from + 1, k, more)
  }

  lemma TakeStops<T>(top: seq<T>, all: seq<T>, rest: seq<T>, k: nat)
    requires |top| < k <= |top + Take(all, k)|
    ensures Take(top + Take(all, k), k) == Take(top + (all + rest), k)
  {
  }

  lemma TakeAll<T>(top: seq<T>, all: seq<T>, k: nat)
    requires |top + Take(all, k)| < k
    ensures Take(all, k) == all
  {
  }

  lemma Regroup<T>(a: seq<T>, b: seq<T>, c: seq<T>)
    ensures (a + b) + c == a + (b + c)
  {
  }

  lemma GatherStep(events: seq<Event>, from: nat, k: nat, top: seq<Event>)
    requires from < SEVERITIES
    ensures var all := StableSort(BEATS, Bucket(events, from));
            Sorted(events, from) == all + Sorted(events, from + 1)
            && Gather(events, from, k, top) == if |top + Take(all, k)| >= k then top + Take(all, k)
                                               else Gather(events, from + 1, k, top + Take(all, k))
  {
  }

  lemma {:induction false} GatherTakes(events: seq<Event>, from: nat, k: nat, top: seq<Event>)
    requires |top| < k
    ensures Take(Gather(events, from, k, top), k) == Take(top + Sorted(events, from), k)
    decreases SEVERITIES - from
  {
    if from >= SEVERITIES {
      assert top + [] == top;
    } else {
      hide Gather, Sorted, StableSort, Bucket, Take;
      GatherStep(events, from, k, top);
      var all, rest := StableSort(BEATS, Bucket(events, from)), Sorted(events, from + 1);
      if |top + Take(all, k)| >= k {
        TakeStops(top, all, rest, k);
      } else {
        TakeAll(top, all, k);
        Regroup(top, all, rest);
        GatherTakes(events, from + 1, k, top + all);
      }
    }
  }

  /** The bounded heaps return exactly the head of the fully sorted stream. */
  lemma HeapsGiveTop(events: seq<Event>, k: nat)
    requires IsStream(events) && k > 0
    ensures Take(Gather(events, 0, k, []), k) == Take(FullSort(events), k)
  {
    hide Gather, Sorted, StableSort, Bucket, Take, IsStream;
    GatherTakes(events, 0, k, []);
    BucketsSortFully(events);
    assert [] + Sorted(events, 0) == Sorted(events, 0);
  }

  // ------------------------------------------ the ordering `classify_events` uses

  /** `_time_sort_key`, reversed: normalized stamps newest first, then the rest by their text. */
  predicate StampLe(a: Event, b: Event) {
    if a.norm.Some? && b.norm.Some? then b.norm.value <= a.norm.value
    else if a.norm.Some? || b.norm.Some? then a.norm.Some?
    else b.raw <= a.raw
  }

  const BY_STAMP: (Event, Event) -> bool := (a: Event, b: Event) => StampLe(a, b)

  function ClassifySort(events: seq<Event>): seq<Event> {
    StableSort(BY_SEVERITY, StableSort(BY_STAMP, events))
  }

  predicate StampRanked(a: Event, b: Event) {
    a.severity < b.severity
    || (a.severity == b.severity && StampLe(a, b) && (StampLe(b, a) ==> a.at <= b.at))
  }

  const STAMP_RANKED: (Event, Event) -> bool := (a: Event, b: Event) => StampRanked(a, b)
  const STAMP_ARRIVAL: (Event, Event) -> bool :=
    (a: Event, b: Event) => StampLe(a, b) && (StampLe(b, a) ==> a.at <= b.at)

  lemma ClassifySortRanked(events: seq<Event>)
    requires IsStream(events)
    ensures SortedBy(STAMP_RANKED, ClassifySort(events)) && multiset(ClassifySort(events)) == multiset(events)
  {
    assert Total(BY_STAMP) && Total(BY_SEVERITY);
    StableSortStable(BY_STAMP, ARRIVAL, events);
    StableSortSorts(BY_STAMP, events);
    var once := StableSort(BY_STAMP, events);
    forall i, j | 0 <= i < j < |once| ensures STAMP_ARRIVAL(once[i], once[j]) {
      assert BY_STAMP(once[i], once[j]);
    }
    StableSortStable(BY_SEVERITY, STAMP_ARRIVAL, once);
    StableSortSorts(BY_SEVERITY, once);
    var twice := StableSort(BY_SEVERITY, once);
    forall i, j | 0 <= i < j < |twice| ensures STAMP_RANKED(twice[i], twice[j]) {
      assert BY_SEVERITY(twice[i], twice[j]);
    }
  }

  /** Of two events in the classified order the first is more severe, or as severe with a later whole
      second; without one it comes after those that have one, and among themselves the text decides
      and then the arrival. */
  lemma ClassifySortMeans(events: seq<Event>, i: nat, j: nat)
    requires IsStream(events) && i < j < |ClassifySort(events)|
    ensures var a, b := ClassifySort(events)[i], ClassifySort(events)[j];
            || a.severity < b.severity
            || (a.severity == b.severity
                && match (a.norm, b.norm)
                   case (Some(s), Some(t)) => s > t || (s == t && a.at < b.at)
                   case (Some(_), None) => true
                   case (None, Some(_)) => false
                   case (None, None) => a.raw > b.raw || (a.raw == b.raw && a.at < b.at))
    ensures multiset(ClassifySort(events)) == multiset(events)
  {
    ClassifySortRanked(events);
    var s := ClassifySort(events);
    hide ClassifySort;
    SameElements(s, events);
    assert Distinct(events);
    DistinctByMultiset(events, s);
    assert s[i] in events && s[j] in events && s[i] != s[j] && STAMP_RANKED(s[i], s[j]);
  }

  /** The two keys agree whether b, arriving after a, overtakes it. */
  predicate KeysAgree(a: Event, b: Event) {
    a.severity == b.severity ==> (!StampLe(a, b) <==> NewestKey(a) < NewestKey(b))
  }

  predicate AllKeysAgree(events: seq<Event>) {
    forall i, j :: 0 <= i < j < |events| ==> KeysAgree(events[i], events[j])
  }

  /** On a stream where the keys agree, so do the two comparisons. */
  lemma RanksAgree(events: seq<Event>, a: Event, b: Event)
    requires IsStream(events) && AllKeysAgree(events)
    requires a in events && b in events && StampRanked(a, b)
    ensures Ranked(a, b)
  {
    var i :| 0 <= i < |events| && events[i] == a;
    var j :| 0 <= j < |events| && events[j] == b;
    assert i < j ==> KeysAgree(a, b);
    assert j < i ==> KeysAgree(b, a);
  }

  /** Two events whose keys disagree stand in opposite orders after the two sorts. */
  lemma OutOfOrder(events: seq<Event>, i: nat, j: nat)
    requires IsStream(events) && i < j < |events| && !KeysAgree(events[i], events[j])
    ensures ClassifySort(events) != FullSort(events)
  {
    ClassifySortRanked(events);
    FullSortRanked(events);
    var s := ClassifySort(events);
    SameElements(s, events);
    assert events[i] in s && events[j] in s;
    var a :| 0 <= a < |s| && s[a] == events[i];
    var b :| 0 <= b < |s| && s[b] == events[j];
    var x, y := s[a], s[b];
    assert a < b ==> STAMP_RANKED(x, y);
    assert b < a ==> STAMP_RANKED(y, x);
    assert a < b && SortedBy(RANKED, s) ==> RANKED(x, y);
    assert b < a && SortedBy(RANKED, s) ==> RANKED(y, x);
  }

  /** The single pass reproduces the order of `classify_events` exactly when, among the events of
      one severity, a later arrival is newer for the one key exactly when it is for the other. */
  lemma ClassifyOrderIff(events: seq<Event>)
    requires IsStream(events)
    ensures ClassifySort(events) == FullSort(events) <==> AllKeysAgree(events)
  {
    ClassifySortRanked(events);
    FullSortRanked(events);
    if AllKeysAgree(events) {
      var s := ClassifySort(events);
      SameElements(s, events);
      forall i, j | 0 <= i < j < |s| ensures RANKED(s[i], s[j]) {
        assert STAMP_RANKED(s[i], s[j]);
        RanksAgree(events, s[i], s[j]);
      }
      ArrivalsNoTies(events, s);
      SortedUnique(RANKED, s, FullSort(events));
    } else {
      var i: nat, j: nat :| i < j < |events| && !KeysAgree(events[i], events[j]);
      OutOfOrder(events, i, j);
    }
  }

  const SECOND: int := 1_000_000

  /** Both readings of the stamp mean one instant, after the first one a datetime can hold. */
  predicate OneClock(e: Event) {
    match e.time
    case None => e.norm.None?
    case Some(t) => t > DATETIME_MIN && e.norm == Some(t / SECOND)
  }

  /** The later arrival is newer by less than its second, or only by the text of its stamp. */
  predicate FinerThanSeconds(a: Event, b: Event) {
    && a.severity == b.severity
    && if a.time.Some? && b.time.Some?
       then a.time.value < b.time.value && a.time.value / SECOND == b.time.value / SECOND
       else a.time.None? && b.time.None? && a.raw < b.raw
  }

  /** Even when both readings agree on every stamp, the pass reproduces the order only if no event
      of the same severity arrives later in the same second but newer, and undated events arrive
      with their texts descending. */
  lemma OneClockOrderIff(events: seq<Event>)
    requires IsStream(events) && forall i :: 0 <= i < |events| ==> OneClock(events[i])
    ensures ClassifySort(events) == FullSort(events) <==>
              forall i, j :: 0 <= i < j < |events| ==> !FinerThanSeconds(events[i], events[j])
  {
    ClassifyOrderIff(events);
    forall i, j | 0 <= i < j < |events|
      ensures KeysAgree(events[i], events[j]) <==> !FinerThanSeconds(events[i], events[j])
    {
      OneClockKeys(events[i], events[j]);
    }
  }

  lemma OneClockKeys(a: Event, b: Event)
    requires OneClock(a) && OneClock(b)
    ensures KeysAgree(a, b) <==> !FinerThanSeconds(a, b)
  {
  }

  /** Two dated events of one severity, a tenth and nine tenths into one second. */
  const TENTH := Event(0, 0, Some(100_000), Some(0), 0, false, 0)
  const NINE_TENTHS := Event(1, 0, Some(900_000), Some(0), 1, false, 0)

  lemma FractionsReorder()
    ensures OneClock(TENTH) && OneClock(NINE_TENTHS)
    ensures ClassifySort([TENTH, NINE_TENTHS]) != FullSort([TENTH, NINE_TENTHS])
  {
    OutOfOrder([TENTH, NINE_TENTHS], 0, 1);
  }

  // ---------------------------------------------------------- the change window

  /** `_event_sort_key`: unknown stamps last, then the host name. */
  datatype Mark = Mark(time: int, host: nat)

  function MarkOf(e: Event): Mark {
    Mark(if e.time.Some? then e.time.value else DATETIME_MAX, e.host)
  }

  predicate MarkLe(a: Mark, b: Mark) {
    a.time < b.time || (a.time == b.time && a.host <= b.host)
  }

  const BY_MARK: (Event, Event) -> bool := (a: Event, b: Event) => MarkLe(MarkOf(a), MarkOf(b))
  const MARKS: (Mark, Mark) -> bool := (a: Mark, b: Mark) => MarkLe(a, b)

  function Commits(events: seq<Event>): seq<Event> {
    if |events| == 0 then []
    else if events[0].commit then [events[0]] + Commits(events[1..]) else Commits(events[1..])
  }

  /** The first mark of every named host not seen before. */
  function FirstMarks(hits: seq<Event>, seen: set<nat>): seq<Mark> {
    if |hits| == 0 then []
    else if hits[0].host != 0 && hits[0].host !in seen
    then [MarkOf(hits[0])] + FirstMarks(hits[1..], seen + {hits[0].host})
    else FirstMarks(hits[1..], seen)
  }

  function Hosts(marks: seq<Mark>): seq<nat> {
    seq(|marks|, i requires 0 <= i < |marks| => marks[i].host)
  }

  /** `change_window`: whether any commit is there, and the hosts by their earliest commit. */
  function Devices(events: seq<Event>): seq<nat> {
    Hosts(FirstMarks(StableSort(BY_MARK, Commits(events)), {}))
  }

  /** The loop over the sorted commits that lists each host once. */
  method ListHosts(hits: seq<Event>) returns (devices: seq<nat>)
    ensures devices == Hosts(FirstMarks(hits, {}))
  {
    devices := [];
    var seen: set<nat> := {};
    for i := 0 to |hits|
      invariant devices + Hosts(FirstMarks(hits[i..], seen)) == Hosts(FirstMarks(hits, {}))
    {
      assert hits[i..][1..] == hits[i + 1..];
      var e := hits[i];
      if e.host != 0 && e.host !in seen {
        assert Hosts(FirstMarks(hits[i..], seen)) == [e.host] + Hosts(FirstMarks(hits[i + 1..], seen + {e.host}));
        seen := seen + {e.host};
        devices := devices + [e.host];
      }
    }
  }

  method ChangeWindow(events: seq<Event>) returns (detected: bool, devices: seq<nat>)
    ensures detected <==> exists e :: e in events && e.commit
    ensures devices == Devices(events)
  {
    var hits := StableSort(BY_MARK, Commits(events));
    CommitsAre(events);
    MarkOrderTotal();
    StableSortSorts(BY_MARK, Commits(events));
    SameElements(hits, Commits(events));
    detected := hits != [];
    assert detected ==> hits[0] in hits;
    devices := ListHosts(hits);
  }

  lemma MarkOrderTotal()
    ensures Total(BY_MARK) && Total(MARKS)
  {
  }

  lemma {:induction false} CommitsAre(events: seq<Event>)
    ensures forall e :: e in Commits(events) <==> e in events && e.commit
  {
    if |events| > 0 { CommitsAre(events[1..]); }
  }

  /** m is the earliest commit mark of its host */
  ghost predicate IsFirstMark(m: Mark, events: seq<Event>) {
    && m.host != 0
    && (exists e :: e in events && e.commit && MarkOf(e) == m)
    && forall e :: e in events && e.commit && e.host == m.host ==> m.time <= MarkOf(e).time
  }

  /** The first marks of a sorted list: in order, one per host, each the earliest of its host. */
  lemma {:induction false} FirstMarksAre(hits: seq<Event>, seen: set<nat>)
    requires SortedBy(BY_MARK, hits)
    ensures SortedBy(MARKS, FirstMarks(hits, seen)) && Distinct(FirstMarks(hits, seen))
    ensures forall m :: m in FirstMarks(hits, seen) <==>
              m.host != 0 && m.host !in seen && (exists e :: e in hits && MarkOf(e) == m)
              && forall e :: e in hits && e.host == m.host ==> m.time <= MarkOf(e).time
  {
    if |hits| > 0 {
      var h := hits[0];
      var counts := h.host != 0 && h.host !in seen;
      var seen' := if counts then seen + {h.host} else seen;
      FirstMarksAre(hits[1..], seen');
      forall e | e in hits[1..] ensures MarkLe(MarkOf(h), MarkOf(e)) {
        HeadIsFirst(hits, e);
      }
      var rest := FirstMarks(hits[1..], seen');
      forall m ensures m in FirstMarks(hits, seen) <==>
              m.host != 0 && m.host !in seen && (exists e :: e in hits && MarkOf(e) == m)
              && forall e :: e in hits && e.host == m.host ==> m.time <= MarkOf(e).time
      {
        FirstMarkStep(hits, seen, seen', m);
      }
      if counts {
        forall m | m in rest ensures MarkLe(MarkOf(h), m) && m != MarkOf(h) {}
        PrependMark(MarkOf(h), rest);
      }
    }
  }

  lemma HeadIsFirst(hits: seq<Event>, e: Event)
    requires SortedBy(BY_MARK, hits) && |hits| > 0 && e in hits[1..]
    ensures MarkLe(MarkOf(hits[0]), MarkOf(e))
  {
    var i :| 0 <= i < |hits[1..]| && hits[1..][i] == e;
    assert BY_MARK(hits[0], hits[i + 1]);
  }

  lemma PrependMark(m: Mark, rest: seq<Mark>)
    requires SortedBy(MARKS, rest) && Distinct(rest) && forall x :: x in rest ==> MarkLe(m, x) && x != m
    ensures SortedBy(MARKS, [m] + rest) && Distinct([m] + rest)
  {
    var t := [m] + rest;
    forall i, j | 0 <= i < j < |t| ensures MARKS(t[i], t[j]) && t[i] != t[j] {
      assert t[j] == rest[j - 1] && rest[j - 1] in rest;
      if i > 0 { assert t[i] == rest[i - 1] && MARKS(rest[i - 1], rest[j - 1]); }
    }
  }

  lemma FirstMarkStep(hits: seq<Event>, seen: set<nat>, seen': set<nat>, m: Mark)
    requires |hits| > 0
    requires seen' == if hits[0].host != 0 && hits[0].host !in seen then seen + {hits[0].host} else seen
    requires forall e :: e in hits[1..] ==> MarkLe(MarkOf(hits[0]), MarkOf(e))
    requires m in FirstMarks(hits[1..], seen') <==>
              m.host != 0 && m.host !in seen' && (exists e :: e in hits[1..] && MarkOf(e) == m)
              && forall e :: e in hits[1..] && e.host == m.host ==> m.time <= MarkOf(e).time
    ensures m in FirstMarks(hits, seen) <==>
              m.host != 0 && m.host !in seen && (exists e :: e in hits && MarkOf(e) == m)
              && forall e :: e in hits && e.host == m.host ==> m.time <= MarkOf(e).time
  {
    var h := hits[0];
    assert hits == [h] + hits[1..];
    assert forall e :: e in hits <==> e == h || e in hits[1..];
    if h.host == m.host && h.host != 0 && h.host !in seen {
      assert m in FirstMarks(hits, seen) <==> m == MarkOf(h);
    }
  }

  lemma DevicesMarks(events: seq<Event>)
    ensures var marks := FirstMarks(StableSort(BY_MARK, Commits(events)), {});
            Devices(events) == Hosts(marks) && SortedBy(MARKS, marks) && Distinct(marks)
            && forall m :: m in marks <==> IsFirstMark(m, events)
  {
    CommitsAre(events);
    MarkOrderTotal();
    StableSortSorts(BY_MARK, Commits(events));
    SameElements(StableSort(BY_MARK, Commits(events)), Commits(events));
    FirstMarksAre(StableSort(BY_MARK, Commits(events)), {});
  }

  /** p is a commit of e's host that is no later */
  ghost predicate Stands(p: Event, e: Event) {
    p.commit && p.host == e.host && MarkOf(p).time <= MarkOf(e).time
  }

  /** kept holds an earliest commit of every host that committed at all. */
  ghost predicate KeepsEarliest(kept: seq<Event>, events: seq<Event>) {
    && (forall e :: e in kept ==> e in events)
    && forall e {:trigger StoodFor(kept, e)} :: e in events && e.commit ==> StoodFor(kept, e)
  }

  ghost predicate StoodFor(kept: seq<Event>, e: Event) {
    exists p :: p in kept && Stands(p, e)
  }

  lemma FirstMarkKept(kept: seq<Event>, events: seq<Event>, m: Mark)
    requires KeepsEarliest(kept, events) && IsFirstMark(m, events)
    ensures IsFirstMark(m, kept)
  {
    var e :| e in events && e.commit && MarkOf(e) == m;
    assert StoodFor(kept, e);
    var p :| p in kept && Stands(p, e);
    assert p in events && MarkOf(p) == m;
  }

  lemma FirstMarkGlobal(kept: seq<Event>, events: seq<Event>, m: Mark)
    requires KeepsEarliest(kept, events) && IsFirstMark(m, kept)
    ensures IsFirstMark(m, events)
  {
    var k :| k in kept && k.commit && MarkOf(k) == m;
    assert k in events;
    forall e | e in events && e.commit && e.host == m.host ensures m.time <= MarkOf(e).time {
      assert StoodFor(kept, e);
      var p :| p in kept && Stands(p, e);
    }
  }

  lemma SameFirstMark(kept: seq<Event>, events: seq<Event>, m: Mark)
    requires KeepsEarliest(kept, events)
    ensures IsFirstMark(m, kept) <==> IsFirstMark(m, events)
  {
    if IsFirstMark(m, events) { FirstMarkKept(kept, events, m); }
    if IsFirstMark(m, kept) { FirstMarkGlobal(kept, events, m); }
  }

  /** Whatever else was dropped, the change window is the one of the whole stream. */
  lemma SameChangeWindow(kept: seq<Event>, events: seq<Event>)
    requires KeepsEarliest(kept, events)
    ensures Devices(kept) == Devices(events)
    ensures (exists e :: e in kept && e.commit) <==> (exists e :: e in events && e.commit)
  {
    DevicesMarks(kept);
    DevicesMarks(events);
    var a := FirstMarks(StableSort(BY_MARK, Commits(kept)), {});
    var b := FirstMarks(StableSort(BY_MARK, Commits(events)), {});
    forall m ensures m in a <==> m in b { SameFirstMark(kept, events, m); }
    if e :| e in events && e.commit { assert StoodFor(kept, e); }
    DistinctSame(a, b);
    SortedUnique(MARKS, a, b);
  }

  // ------------------------------------------------------------ the single pass

  /** entry comparison of the pin: earlier stamp, then earlier arrival */
  predicate Earlier(a: Event, b: Event) {
    MarkOf(a).time < MarkOf(b).time || (MarkOf(a).time == MarkOf(b).time && a.at < b.at)
  }

  /** The earliest commit of each host so far. */
  class HostPins {
    var slot: map<nat, Event>
    ghost var pinned: seq<Event>

    ghost predicate Valid()
      reads this
    {
      && (forall h :: h in slot ==> slot[h] in pinned && slot[h].host == h)
      && (forall e :: e in pinned ==> e.commit && e.host in slot && (e == slot[e.host] || Earlier(slot[e.host], e)))
    }

    constructor ()
      ensures Valid() && pinned == []
    {
      slot, pinned := map[], [];
    }

    /** `_pin_earliest` */
    method PinEarliest(e: Event)
      requires Valid() && e.commit && forall x :: x in pinned ==> x.at < e.at
      modifies this
      ensures Valid() && pinned == old(pinned) + [e]
    {
      if e.host !in slot {
        slot := slot[e.host := e];
      } else {
        var prev := slot[e.host];
        if Earlier(e, prev) {
          slot := slot[e.host := e];
        }
      }
      pinned := pinned + [e];
    }
  }

  /** `_merge_config_reserve`: pinned and newest commits, each once, oldest first. */
  method MergeReserve(newest: seq<Event>, slot: map<nat, Event>) returns (reserved: seq<Event>)
    ensures forall e :: e in reserved <==> e in newest || exists h :: h in slot && slot[h] == e
    ensures Distinct(reserved) && SortedBy(BY_MARK, reserved)
  {
    var all: seq<Event> := [];
    var todo := slot.Keys;
    while todo != {}
      invariant todo <= slot.Keys && Distinct(all)
      invariant forall e :: e in all <==> exists h :: h in slot && h !in todo && slot[h] == e
      decreases todo
    {
      var h :| h in todo;
      all := if slot[h] in all then all else all + [slot[h]];
      todo := todo - {h};
    }
    for i := 0 to |newest|
      invariant Distinct(all)
      invariant forall e :: e in all <==> e in newest[..i] || exists h :: h in slot && slot[h] == e
    {
      all := if newest[i] in all then all else all + [newest[i]];
    }
    MarkOrderTotal();
    StableSortSorts(BY_MARK, all);
    SameElements(StableSort(BY_MARK, all), all);
    DistinctByMultiset(all, StableSort(BY_MARK, all));
    reserved := StableSort(BY_MARK, all);
  }

  /** `_with_reserved_config`: the severity-capped events and the reserved commits they lack. */
  function WithReserved(top: seq<Event>, reserved: seq<Event>): seq<Event> {
    top + Missing(reserved, top)
  }

  function Missing(reserved: seq<Event>, top: seq<Event>): seq<Event> {
    if |reserved| == 0 then []
    else (if reserved[0] in top then [] else [reserved[0]]) + Missing(reserved[1..], top)
  }

  lemma {:induction false} MissingAre(reserved: seq<Event>, top: seq<Event>)
    ensures forall e :: e in Missing(reserved, top) <==> e in reserved && e !in top
  {
    if |reserved| > 0 { MissingAre(reserved[1..], top); }
  }

  /** Adding what is missing repeats nothing. */
  lemma DistinctUnion(top: seq<Event>, reserved: seq<Event>)
    requires Distinct(top) && Distinct(reserved)
    ensures Distinct(WithReserved(top, reserved))
  {
    MissingDistinct(reserved, top);
    MissingAre(reserved, top);
    var all := WithReserved(top, reserved);
    forall i, j | 0 <= i < j < |all| ensures all[i] != all[j] {
      if i < |top| <= j { assert all[i] in top && all[j] in Missing(reserved, top); }
    }
  }

  lemma {:induction false} MissingDistinct(reserved: seq<Event>, top: seq<Event>)
    requires Distinct(reserved)
    ensures Distinct(Missing(reserved, top))
  {
    if |reserved| > 0 {
      MissingDistinct(reserved[1..], top);
      MissingAre(reserved[1..], top);
      assert reserved[0] !in reserved[1..];
      var rest := Missing(reserved[1..], top);
      assert forall i :: 0 <= i < |rest| ==> rest[i] in rest;
    }
  }

  lemma {:induction false} MissingSorted(reserved: seq<Event>, top: seq<Event>)
    requires SortedBy(BY_MARK, reserved)
    ensures SortedBy(BY_MARK, Missing(reserved, top))
  {
    if |reserved| > 0 {
      MissingSorted(reserved[1..], top);
      MissingAre(reserved[1..], top);
      var rest := Missing(reserved[1..], top);
      forall i | 0 <= i < |rest| ensures BY_MARK(reserved[0], rest[i]) {
        assert rest[i] in rest;
        var k :| 0 <= k < |reserved[1..]| && reserved[1..][k] == rest[i];
        assert BY_MARK(reserved[0], reserved[k + 1]);
      }
    }
  }

  // ----------------------------------------------- what the reserve holds, field by field

  /** d comes before e among the newest: a later stamp, an unread one counting as year one, then
      the earlier arrival. */
  predicate Newer(d: Event, e: Event) {
    var s, t := (if d.time.Some? then d.time.value else 0), (if e.time.Some? then e.time.value else 0);
    s > t || (s == t && d.at < e.at)
  }

  ghost function NewerCommits(events: seq<Event>, e: Event): set<Event> {
    set d | d in events && d.commit && Newer(d, e)
  }

  /** One of the fifty newest commits of the stream. */
  ghost predicate IsRecent(events: seq<Event>, e: Event) {
    e in events && e.commit && |NewerCommits(events, e)| < 50
  }

  /** d comes before e among the oldest: an earlier stamp, an unread one counting as the end of
      year 9999, then the earlier arrival. */
  predicate Older(d: Event, e: Event) {
    var s := if d.time.Some? then d.time.value else 315_537_897_599_999_999;
    var t := if e.time.Some? then e.time.value else 315_537_897_599_999_999;
    s < t || (s == t && d.at < e.at)
  }

  /** The earliest commit of its device. */
  ghost predicate IsEarliest(events: seq<Event>, e: Event) {
    e in events && e.commit && !exists d :: d in events && d.commit && d.host == e.host && Older(d, e)
  }

  /** The rank of an entry in a sorted list is the number of entries that come before it. */
  lemma RankIsCount(sorted: seq<Event>, k: nat)
    requires SortedBy(BEATS, sorted) && Distinct(sorted) && NoTies(BEATS, sorted) && k < |sorted|
    ensures |set d | d in sorted && Newer(d, sorted[k])| == k
  {
    var before := sorted[..k];
    DistinctSize(before);
    forall d ensures d in before <==> d in sorted && Newer(d, sorted[k]) {
      if d in sorted {
        var i :| 0 <= i < |sorted| && sorted[i] == d;
        assert i < k ==> BEATS(sorted[i], sorted[k]) && before[i] == d;
        assert k < i ==> BEATS(sorted[k], sorted[i]);
      }
    }
    assert Elements(before) == set d | d in sorted && Newer(d, sorted[k]);
  }

  /** d is more severe than e, or as severe and newer. */
  predicate Sooner(d: Event, e: Event) {
    d.severity < e.severity || (d.severity == e.severity && Newer(d, e))
  }

  ghost function SoonerEvents(events: seq<Event>, e: Event): set<Event> {
    set d | d in events && Sooner(d, e)
  }

  /** The first k events of the stream: the i-th is the one with exactly i sooner ones. */
  ghost predicate IsTop(events: seq<Event>, k: nat, top: seq<Event>) {
    && |top| == (if k < |events| then k else |events|)
    && forall i :: 0 <= i < |top| ==> top[i] in events && |SoonerEvents(events, top[i])| == i
  }

  lemma FullSortIsTop(events: seq<Event>, k: nat)
    requires IsStream(events)
    ensures IsTop(events, k, Take(FullSort(events), k))
  {
    var sorted := FullSort(events);
    FullSortRanked(events);
    ArrivalsNoTies(events, sorted);
    SameElements(sorted, events);
    DistinctByMultiset(events, sorted);
    hide FullSort;
    forall i | 0 <= i < |sorted| ensures |SoonerEvents(events, sorted[i])| == i {
      SoonerIsBefore(events, sorted, i);
    }
  }

  lemma SoonerIsBefore(events: seq<Event>, sorted: seq<Event>, k: nat)
    requires SortedBy(RANKED, sorted) && Distinct(sorted) && NoTies(RANKED, sorted) && k < |sorted|
    requires forall e :: e in sorted <==> e in events
    ensures |SoonerEvents(events, sorted[k])| == k
  {
    var before := sorted[..k];
    DistinctSize(before);
    forall d ensures d in before <==> d in events && Sooner(d, sorted[k]) {
      if d in sorted {
        var i :| 0 <= i < |sorted| && sorted[i] == d;
        assert i < k ==> RANKED(sorted[i], sorted[k]) && before[i] == d;
        assert k < i ==> RANKED(sorted[k], sorted[i]);
      }
    }
    assert Elements(before) == SoonerEvents(events, sorted[k]);
  }

  /** The heap of commits holds the fifty newest. */
  lemma HeapIsRecent(events: seq<Event>, e: Event)
    requires Arrivals(events)
    ensures e in Best(Commits(events), CONFIG_RESERVE) <==> IsRecent(events, e)
    ensures Distinct(Best(Commits(events), CONFIG_RESERVE))
  {
    var commits := Commits(events);
    var sorted := StableSort(BEATS, commits);
    CommitsArrive(events);
    CommitsAre(events);
    OrdersTotal();
    StableSortSorts(BEATS, commits);
    SameElements(sorted, commits);
    ArrivalsNoTies(commits, sorted);
    assert Distinct(commits);
    DistinctByMultiset(commits, sorted);
    hide StableSort, Commits, SortedBy, NoTies, Total, BEATS;
    RecentIsFirst(events, sorted, e);
  }

  lemma RecentIsFirst(events: seq<Event>, sorted: seq<Event>, e: Event)
    requires SortedBy(BEATS, sorted) && Distinct(sorted) && NoTies(BEATS, sorted)
    requires forall d :: d in sorted <==> d in events && d.commit
    ensures e in Take(sorted, 50) <==> IsRecent(events, e)
    ensures Distinct(Take(sorted, 50))
  {
    if e in sorted {
      var k :| 0 <= k < |sorted| && sorted[k] == e;
      RankIsCount(sorted, k);
      hide SortedBy, NoTies, BEATS;
      assert NewerCommits(events, e) == set d | d in sorted && Newer(d, sorted[k]);
      FirstAre(sorted, k, 50);
    }
  }

  lemma FirstAre(sorted: seq<Event>, k: nat, n: nat)
    requires Distinct(sorted) && k < |sorted|
    ensures sorted[k] in Take(sorted, n) <==> k < n
  {
    if k < n { assert Take(sorted, n)[k] == sorted[k]; }
  }

  lemma PinIsEarliest(events: seq<Event>, slot: map<nat, Event>, e: Event)
    requires Arrivals(events)
    requires forall h :: h in slot ==> slot[h] in Commits(events) && slot[h].host == h
    requires forall x :: x in Commits(events) ==>
               x.host in slot && (x == slot[x.host] || Earlier(slot[x.host], x))
    ensures (exists h :: h in slot && slot[h] == e) <==> IsEarliest(events, e)
  {
    CommitsAre(events);
    if h :| h in slot && slot[h] == e {
      forall d | d in events && d.commit && d.host == e.host ensures !Older(d, e) {
        assert d in Commits(events);
      }
    }
    if IsEarliest(events, e) {
      assert e in Commits(events);
      var p := slot[e.host];
      assert p in Commits(events);
      assert Earlier(p, e) ==> Older(p, e);
    }
  }

  /** By stamp, an unread one last, and then by host. */
  ghost predicate OldestFirst(events: seq<Event>) {
    forall i, j :: 0 <= i < j < |events| ==>
      var s := if events[i].time.Some? then events[i].time.value else 315_537_897_599_999_999;
      var t := if events[j].time.Some? then events[j].time.value else 315_537_897_599_999_999;
      s < t || (s == t && events[i].host <= events[j].host)
  }

  lemma SortedIsOldestFirst(events: seq<Event>)
    requires SortedBy(BY_MARK, events)
    ensures OldestFirst(events)
  {
    forall i, j | 0 <= i < j < |events| ensures MarkLe(MarkOf(events[i]), MarkOf(events[j])) {
      assert BY_MARK(events[i], events[j]);
    }
  }

  /** The capped events, and after them, oldest first, the reserved commits they lack. */
  ghost predicate IsCausal(events: seq<Event>, top: seq<Event>, causal: seq<Event>) {
    && |top| <= |causal| && top == causal[..|top|] && OldestFirst(causal[|top|..]) && Distinct(causal)
    && forall e :: e in causal <==> e in top || IsRecent(events, e) || IsEarliest(events, e)
  }

  lemma ReserveIsCausal(events: seq<Event>, top: seq<Event>, reserved: seq<Event>, newest: seq<Event>,
                        slot: map<nat, Event>)
    requires Arrivals(events) && Distinct(top) && newest == Best(Commits(events), CONFIG_RESERVE)
    requires forall h :: h in slot ==> slot[h] in Commits(events) && slot[h].host == h
    requires forall x :: x in Commits(events) ==>
               x.host in slot && (x == slot[x.host] || Earlier(slot[x.host], x))
    requires forall e :: e in reserved <==> e in newest || exists h :: h in slot && slot[h] == e
    requires Distinct(reserved) && SortedBy(BY_MARK, reserved)
    ensures IsCausal(events, top, WithReserved(top, reserved))
  {
    hide IsRecent, IsEarliest, Best, Commits, Earlier, Arrivals;
    MissingAre(reserved, top);
    MissingSorted(reserved, top);
    DistinctUnion(top, reserved);
    var causal := WithReserved(top, reserved);
    assert causal[|top|..] == Missing(reserved, top);
    SortedIsOldestFirst(Missing(reserved, top));
    forall e ensures e in causal <==> e in top || IsRecent(events, e) || IsEarliest(events, e) {
      HeapIsRecent(events, e);
      PinIsEarliest(events, slot, e);
    }
  }

  lemma {:induction false} CommitsAppend(events: seq<Event>, e: Event)
    ensures Commits(events + [e]) == Commits(events) + if e.commit then [e] else []
  {
    if |events| == 0 {
      assert (events + [e])[1..] == [];
    } else {
      assert (events + [e])[1..] == events[1..] + [e];
      CommitsAppend(events[1..], e);
    }
  }

  lemma {:induction false} CommitsArrive(events: seq<Event>)
    requires Arrivals(events)
    ensures Arrivals(Commits(events))
  {
    if |events| > 0 {
      CommitsArrive(events[1..]);
      CommitsAre(events[1..]);
      var rest := Commits(events[1..]);
      forall i | 0 <= i < |rest| ensures events[0].at < rest[i].at {
        assert rest[i] in rest;
        var k :| 0 <= k < |events[1..]| && events[1..][k] == rest[i];
      }
    }
  }

  ghost predicate Separate(buckets: seq<NewestHeap>, config: NewestHeap) {
    && |buckets| == SEVERITIES
    && (forall s, t :: 0 <= s < t < SEVERITIES ==> buckets[s] != buckets[t])
    && (forall s :: 0 <= s < SEVERITIES ==> buckets[s] != config)
  }

  ghost predicate HeapsHold(buckets: seq<NewestHeap>, events: seq<Event>, k: nat)
    reads buckets
  {
    |buckets| == SEVERITIES
    && forall s :: 0 <= s < SEVERITIES ==>
         buckets[s].Valid() && buckets[s].cap == k && buckets[s].pushed == Bucket(events, s)
  }

  ghost predicate ReserveHolds(config: NewestHeap, pins: HostPins, events: seq<Event>)
    reads config, pins
  {
    && config.Valid() && pins.Valid() && config.cap == CONFIG_RESERVE
    && config.pushed == Commits(events) && pins.pinned == Commits(events)
  }

  lemma ArrivalAppends(before: seq<Event>, e: Event)
    requires Arrivals(before + [e])
    ensures Arrivals(before) && forall x :: x in before ==> x.at < e.at
  {
    var all := before + [e];
    forall x | x in before ensures x.at < e.at {
      var i :| 0 <= i < |before| && before[i] == x;
      assert all[i].at < all[|before|].at;
    }
    forall i, j | 0 <= i < j < |before| ensures before[i].at < before[j].at {
      assert all[i].at < all[j].at;
    }
  }

  /** Into the heap of its severity. */
  method FeedBucket(buckets: seq<NewestHeap>, e: Event, ghost before: seq<Event>, ghost k: nat)
    requires |buckets| == SEVERITIES && forall s, t :: 0 <= s < t < SEVERITIES ==> buckets[s] != buckets[t]
    requires e.severity < SEVERITIES && Arrivals(before + [e]) && HeapsHold(buckets, before, k)
    modifies buckets
    ensures HeapsHold(buckets, before + [e], k)
  {
    BucketIs(before + [e], e.severity);
    forall s: nat { BucketAppend(before, e, s); }
    buckets[e.severity].PushNewest(e);
  }

  /** Into the reserve if it is a commit. */
  method FeedReserve(config: NewestHeap, pins: HostPins, e: Event, ghost before: seq<Event>)
    requires Arrivals(before + [e]) && ReserveHolds(config, pins, before)
    modifies config, pins
    ensures ReserveHolds(config, pins, before + [e])
  {
    ArrivalAppends(before, e);
    CommitsAppend(before, e);
    CommitsAre(before);
    CommitsArrive(before + [e]);
    if e.commit {
      config.PushNewest(e);
      pins.PinEarliest(e);
    }
  }

  /** An empty heap per severity. */
  method EmptyBuckets(topK: nat) returns (buckets: seq<NewestHeap>)
    requires topK > 0
    ensures HeapsHold(buckets, [], topK) && fresh(buckets)
    ensures forall s, t :: 0 <= s < t < |buckets| ==> buckets[s] != buckets[t]
  {
    buckets := [];
    while |buckets| < SEVERITIES
      invariant |buckets| <= SEVERITIES && fresh(buckets)
      invariant forall s :: 0 <= s < |buckets| ==>
                  buckets[s].Valid() && buckets[s].cap == topK && buckets[s].pushed == []
      invariant forall s, t :: 0 <= s < t < |buckets| ==> buckets[s] != buckets[t]
    {
      var heap := new NewestHeap(topK);
      buckets := buckets + [heap];
    }
  }

  method Start(topK: nat) returns (buckets: seq<NewestHeap>, config: NewestHeap, pins: HostPins)
    requires topK > 0
    ensures Separate(buckets, config) && fresh(buckets) && fresh(config) && fresh(pins)
    ensures HeapsHold(buckets, [], topK) && ReserveHolds(config, pins, [])
  {
    buckets := EmptyBuckets(topK);
    config := new NewestHeap(CONFIG_RESERVE);
    pins := new HostPins();
  }

  lemma PrefixArrives(events: seq<Event>, n: nat)
    requires IsStream(events) && n <= |events|
    ensures n < |events| ==> events[n].severity < SEVERITIES && events[..n + 1] == events[..n] + [events[n]]
    ensures n < |events| ==> Arrivals(events[..n] + [events[n]])
  {
  }

  /** One event of the stream. */
  method Feed(buckets: seq<NewestHeap>, config: NewestHeap, pins: HostPins, e: Event, ghost before: seq<Event>,
              ghost k: nat)
    requires Separate(buckets, config) && e.severity < SEVERITIES && Arrivals(before + [e])
    requires HeapsHold(buckets, before, k) && ReserveHolds(config, pins, before)
    modifies buckets, config, pins
    ensures HeapsHold(buckets, before + [e], k) && ReserveHolds(config, pins, before + [e])
  {
    hide HeapsHold, ReserveHolds, Arrivals;
    FeedReserve(config, pins, e, before);
    FeedBucket(buckets, e, before, k);
  }

  /** The loop over the stream. */
  method Pass(events: seq<Event>, topK: nat) returns (buckets: seq<NewestHeap>, config: NewestHeap, pins: HostPins)
    requires IsStream(events) && topK > 0
    ensures HeapsHold(buckets, events, topK) && ReserveHolds(config, pins, events)
  {
    buckets, config, pins := Start(topK);
    assert events[..0] == [];
    hide *;
    for i := 0 to |events|
      invariant Separate(buckets, config)
      invariant HeapsHold(buckets, events[..i], topK) && ReserveHolds(config, pins, events[..i])
      invariant fresh(buckets) && fresh(config) && fresh(pins)
    {
      PrefixArrives(events, i);
      Feed(buckets, config, pins, events[i], events[..i], topK);
    }
    assert events[..|events|] == events;
  }

  /** What the reserve adds to the capped events keeps every host's earliest commit. */
  lemma ReserveKeepsEarliest(events: seq<Event>, top: seq<Event>, reserved: seq<Event>, newest: seq<Event>,
                             slot: map<nat, Event>)
    requires forall e :: e in top ==> e in events
    requires forall e :: e in newest ==> e in events
    requires forall h :: h in slot ==> slot[h] in Commits(events)
    requires forall e :: e in Commits(events) ==> e.host in slot && Stands(slot[e.host], e)
    requires forall e :: e in reserved <==> e in newest || exists h :: h in slot && slot[h] == e
    ensures KeepsEarliest(WithReserved(top, reserved), events)
  {
    var kept := WithReserved(top, reserved);
    MissingAre(reserved, top);
    CommitsAre(events);
    forall e | e in events && e.commit ensures StoodFor(kept, e) {
      assert slot[e.host] in reserved;
      assert slot[e.host] in kept;
    }
  }

  lemma BestAreOf(events: seq<Event>, cap: nat)
    ensures forall e :: e in Best(events, cap) ==> e in events
  {
    OrdersTotal();
    StableSortSorts(BEATS, events);
    SameElements(StableSort(BEATS, events), events);
  }

  lemma TopIsOf(events: seq<Event>, k: nat)
    requires IsStream(events)
    ensures forall e :: e in Take(FullSort(events), k) ==> e in events
    ensures Distinct(Take(FullSort(events), k))
  {
    FullSortRanked(events);
    SameElements(FullSort(events), events);
    DistinctByMultiset(events, FullSort(events));
  }

  /** What the capped events and the reserve are of the stream. */
  lemma CausalKeeps(events: seq<Event>, k: nat, reserved: seq<Event>, newest: seq<Event>, slot: map<nat, Event>)
    requires IsStream(events) && newest == Best(Commits(events), CONFIG_RESERVE)
    requires forall h :: h in slot ==> slot[h] in Commits(events) && slot[h].host == h
    requires forall x :: x in Commits(events) ==>
               x.host in slot && (x == slot[x.host] || Earlier(slot[x.host], x))
    requires forall e :: e in reserved <==> e in newest || exists h :: h in slot && slot[h] == e
    requires Distinct(reserved) && SortedBy(BY_MARK, reserved)
    ensures var top := Take(FullSort(events), k);
            var causal := WithReserved(top, reserved);
            IsTop(events, k, top) && IsCausal(events, top, causal) && KeepsEarliest(causal, events)
  {
    var top := Take(FullSort(events), k);
    BestAreOf(Commits(events), CONFIG_RESERVE);
    CommitsAre(events);
    TopIsOf(events, k);
    FullSortIsTop(events, k);
    ReserveIsCausal(events, top, reserved, newest, slot);
    hide FullSort, Take, Best, IsTop, IsCausal, KeepsEarliest, Commits, WithReserved;
    forall e | e in Commits(events) ensures e.host in slot && Stands(slot[e.host], e) {}
    ReserveKeepsEarliest(events, top, reserved, newest, slot);
  }

  /** `_aggregate_stream_ex`: one bounded pass; the causal console sees the capped events plus
      the commit reserve, and from them the change window of the whole stream. */
  method AggregateStream(events: seq<Event>, topK: nat) returns (top: seq<Event>, causal: seq<Event>)
    requires IsStream(events) && topK > 0
    ensures top == Take(FullSort(events), topK) && IsTop(events, topK, top)
    ensures IsCausal(events, top, causal) && KeepsEarliest(causal, events)
    ensures Devices(causal) == Devices(events)
    ensures (exists e :: e in causal && e.commit) <==> (exists e :: e in events && e.commit)
  {
    var buckets, config, pins := Pass(events, topK);
    top := CollectTop(buckets, events, topK);
    HeapsGiveTop(events, topK);
    var reserved := MergeReserve(config.items, pins.slot);
    causal := WithReserved(top, reserved);
    CausalKeeps(events, topK, reserved, config.items, pins.slot);
    SameChangeWindow(causal, events);
  }

  /** The final loop over the severities, broken off once there are enough events. */
  method CollectTop(buckets: seq<NewestHeap>, ghost events: seq<Event>, topK: nat) returns (top: seq<Event>)
    requires HeapsHold(buckets, events, topK)
    ensures top == Take(Gather(events, 0, topK, []), topK)
  {
    top := [];
    var severity := 0;
    while severity < SEVERITIES
      invariant severity <= SEVERITIES
      invariant Gather(events, severity, topK, top) == Gather(events, 0, topK, [])
    {
      top := top + buckets[severity].items;
      if |top| >= topK {
        break;
      }
      severity := severity + 1;
    }
    top := Take(top, topK);
  }
}
