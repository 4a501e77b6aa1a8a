/** Collapsing an entity's transitions and the flap test of entity_state.py. */
module EntityState {
  import opened EntityTracker
  import opened Options
  import opened Ordering

  // ------------------------------------------------------------- the flap window

  /** Some n of the times lie within the window of one another. */
  ghost predicate Crowded(times: seq<int>, n: nat, window: int) {
    exists m: multiset<int> :: Crowd(times, n, window, m)
  }

  ghost predicate Crowd(times: seq<int>, n: nat, window: int, m: multiset<int>) {
    m <= multiset(times) && |m| == n && forall x, y :: x in m && y in m ==> x - y <= window
  }

  predicate Leq(a: int, b: int) {
    a <= b
  }

  predicate WindowFits(s: seq<int>, n: nat, window: int, i: nat) {
    0 < n && i + n <= |s| && s[i + n - 1] - s[i] <= window
  }

  lemma SliceCounts(s: seq<int>, i: nat, j: nat)
    requires i <= j <= |s|
    ensures multiset(s) == multiset(s[..i]) + multiset(s[i..j]) + multiset(s[j..])
  {
    assert s == s[..i] + s[i..j] + s[j..];
  }

  /** A window of the sorted times that fits is a crowd. */
  lemma WindowIsCrowd(s: seq<int>, n: nat, window: int, i: nat)
    requires SortedBy(Leq, s) && WindowFits(s, n, window, i)
    ensures Crowd(s, n, window, multiset(s[i..i + n]))
  {
    hide SortedBy, Leq;
    SliceCounts(s, i, i + n);
    var m := multiset(s[i..i + n]);
    forall x, y | x in m && y in m ensures x - y <= window {
      WithinWindow(s, i, i + n, x);
      WithinWindow(s, i, i + n, y);
    }
  }

  lemma WithinWindow(s: seq<int>, i: nat, j: nat, x: int)
    requires SortedBy(Leq, s) && i < j <= |s| && x in multiset(s[i..j])
    ensures s[i] <= x <= s[j - 1]
  {
    assert x in s[i..j];
    var a :| i <= a < j && s[a] == x;
    assert a < j - 1 ==> Leq(s[a], s[j - 1]);
    assert i < a ==> Leq(s[i], s[a]);
  }

  lemma {:induction false} LeastOf(m: multiset<int>) returns (x: int)
    requires m != multiset{}
    ensures x in m && forall y :: y in m ==> x <= y
    decreases |m|
  {
    assert (forall a :: a !in m) ==> m == multiset{};
    var a :| a in m;
    x := a;
    var rest := m[a := 0];
    if rest != multiset{} {
      assert m == rest + (m - rest);
      assert m - rest != multiset{} by { assert (m - rest)[a] == m[a]; }
      var b := LeastOf(rest);
      x := if b < a then b else a;
    }
    forall y | y in m ensures x <= y {
      assert y == a || y in rest;
    }
  }

  /** The first position whose time is at least x. */
  lemma {:induction false} FirstFrom(s: seq<int>, x: int) returns (i: nat)
    requires x in s
    ensures i < |s| && s[i] >= x && forall k :: 0 <= k < i ==> s[k] < x
  {
    if s[0] >= x {
      i := 0;
    } else {
      assert s == [s[0]] + s[1..];
      var j := FirstFrom(s[1..], x);
      i := j + 1;
      forall k | 0 <= k < i ensures s[k] < x {
        if k > 0 { assert s[1..][k - 1] < x; }
      }
    }
  }

  lemma PartSize(m: multiset<int>, k: multiset<int>)
    requires m <= k
    ensures |m| <= |k|
  {
    assert k == m + (k - m);
  }

  /** Every crowd shows as a window of the sorted times. */
  lemma CrowdIsWindow(s: seq<int>, n: nat, window: int, m: multiset<int>) returns (i: nat)
    requires SortedBy(Leq, s) && n > 0 && Crowd(s, n, window, m)
    ensures WindowFits(s, n, window, i)
  {
    assert m != multiset{};
    var x := LeastOf(m);
    assert x in multiset(s);
    i := FirstFrom(s, x);
    CrowdFromLeast(s, m, x, i);
    PartSize(m, multiset(s[i..]));
    if s[i + n - 1] - s[i] > window {
      CrowdBelow(s, m, x, i, n, window);
      PartSize(m, multiset(s[i..i + n - 1]));
    }
  }

  lemma CrowdFromLeast(s: seq<int>, m: multiset<int>, x: int, i: nat)
    requires m <= multiset(s) && i <= |s| && (forall y :: y in m ==> x <= y)
    requires forall k :: 0 <= k < i ==> s[k] < x
    ensures m <= multiset(s[i..])
  {
    assert s == s[..i] + s[i..];
    forall y | y in m ensures m[y] <= multiset(s[i..])[y] {
      assert y !in s[..i];
      assert multiset(s[..i])[y] == 0;
    }
  }

  lemma CrowdBelow(s: seq<int>, m: multiset<int>, x: int, i: nat, n: nat, window: int)
    requires SortedBy(Leq, s) && 0 < n && i + n <= |s| && m <= multiset(s[i..])
    requires x in m && s[i] >= x && s[i + n - 1] - s[i] > window
    requires forall y, z :: y in m && z in m ==> y - z <= window
    requires forall y :: y in m ==> x <= y
    ensures m <= multiset(s[i..i + n - 1])
  {
    assert s[i..] == s[i..i + n - 1] + s[i + n - 1..];
    forall y | y in m ensures m[y] <= multiset(s[i..i + n - 1])[y] {
      assert y - x <= window;
      forall k | i + n - 1 <= k < |s| ensures s[k] != y {
        assert k > i + n - 1 ==> Leq(s[i + n - 1], s[k]);
      }
      assert y !in s[i + n - 1..];
      assert multiset(s[i + n - 1..])[y] == 0;
    }
  }

  /** The sliding window over the sorted times decides crowding, whatever the arrival order. */
  lemma WindowsDecideCrowding(times: seq<int>, n: nat, window: int)
    requires n > 0
    ensures Crowded(times, n, window) <==> exists i: nat :: WindowFits(StableSort(Leq, times), n, window, i)
  {
    var s := StableSort(Leq, times);
    StableSortSorts(Leq, times);
    if Crowded(times, n, window) {
      var m :| Crowd(times, n, window, m);
      assert Crowd(s, n, window, m);
      var i := CrowdIsWindow(s, n, window, m);
    }
    if i: nat :| WindowFits(s, n, window, i) {
      WindowIsCrowd(s, n, window, i);
      assert Crowd(times, n, window, multiset(s[i..i + n]));
    }
  }

  function Known(downs: seq<Option<int>>): seq<int> {
    if downs == [] then []
    else Known(downs[..|downs| - 1]) + match downs[|downs| - 1] { case None => [] case Some(t) => [t] }
  }

  /** With no stamp missing these are the times of all the edges, in their order. */
  lemma {:induction false} AllKnown(downs: seq<Option<int>>)
    requires None !in downs
    ensures |Known(downs)| == |downs| && forall i :: 0 <= i < |downs| ==> downs[i] == Some(Known(downs)[i])
  {
    if downs != [] {
      var n := |downs| - 1;
      assert downs[n] in downs && downs == downs[..n] + [downs[n]];
      assert forall x :: x in downs[..n] ==> x in downs;
      AllKnown(downs[..n]);
    }
  }

  lemma SortKeepsSize(times: seq<int>)
    ensures |StableSort(Leq, times)| == |times|
  {
    StableSortSorts(Leq, times);
    SameElements(StableSort(Leq, times), times);
  }

  /** Enough down edges, and enough of them close together; a missing stamp leaves it to the count. */
  ghost predicate Flaps(downs: seq<Option<int>>, threshold: nat, window: int) {
    |downs| >= threshold && (None in downs || Crowded(Known(downs), threshold, window))
  }

  /** `_is_flapping` */
  method IsFlapping(downs: seq<Option<int>>, threshold: nat, window: int) returns (flapping: bool)
    requires threshold > 0
    ensures flapping <==> Flaps(downs, threshold, window)
  {
    hide Crowded, Known, StableSort, SortedBy;
    if |downs| < threshold {
      return false;
    }
    if None in downs {
      return true;
    }
    var times := StableSort(Leq, Known(downs));
    SortKeepsSize(Known(downs));
    AllKnown(downs);
    WindowsDecideCrowding(Known(downs), threshold, window);
    for i := 0 to |times| - threshold + 1
      invariant forall j: nat :: j < i ==> !WindowFits(times, threshold, window, j)
    {
      if times[i + threshold - 1] - times[i] <= window {
        assert WindowFits(times, threshold, window, i);
        return true;
      }
    }
    return false;
  }

  // ------------------------------------------------------ collapsing repeats

  /** The order of the collapsing loop: by time if every time is known, by arrival otherwise. */
  predicate Chronological(a: Transition, b: Transition) {
    match (a.time, b.time)
    case (Some(x), Some(y)) => x < y || (x == y && a.arrival <= b.arrival)
    case (None, Some(_)) => true
    case (Some(_), None) => false
    case (None, None) => true
  }

  predicate Arrived(a: Transition, b: Transition) {
    a.arrival <= b.arrival
  }

  function InOrder(ts: seq<Transition>): seq<Transition> {
    if forall t :: t in ts ==> t.time.Some? then StableSort(Chronological, ts) else StableSort(Arrived, ts)
  }

  /** The last transition changes the state. */
  predicate IsEdge(s: seq<Transition>) {
    s != [] && s[|s| - 1].state != if |s| == 1 then Unknown else s[|s| - 2].state
  }

  /** The times of the changes into a state. */
  function Edges(s: seq<Transition>, state: State): seq<Option<int>> {
    if s == [] then []
    else
      var last := s[|s| - 1];
      Edges(s[..|s| - 1], state) + if IsEdge(s) && last.state == state then [last.time] else []
  }

  /** The same transitions in order: by time and then arrival, by arrival alone if a time is missing. */
  ghost predicate IsInOrder(ts: seq<Transition>, s: seq<Transition>) {
    && multiset(s) == multiset(ts)
    && if exists t :: t in ts && t.time.None? then forall i, j :: 0 <= i < j < |s| ==> s[i].arrival <= s[j].arrival
       else forall i, j :: 0 <= i < j < |s| ==>
              && s[i].time.Some? && s[j].time.Some?
              && (s[i].time.value < s[j].time.value
                  || (s[i].time.value == s[j].time.value && s[i].arrival <= s[j].arrival))
  }

  ghost predicate Toggles(s: seq<Transition>) {
    forall t :: t in s ==> !t.state.Unknown?
  }

  /** Down and up edges alternate. */
  lemma {:induction false} EdgesAlternate(s: seq<Transition>)
    requires Toggles(s)
    ensures s != [] ==> |Edges(s, Down)| - |Edges(s, Up)| ==
                        (if s[0].state == Down then 1 else 0) - (if s[|s| - 1].state == Up then 1 else 0)
    ensures -1 <= |Edges(s, Down)| - |Edges(s, Up)| <= 1
  {
    if s != [] {
      var init := s[..|s| - 1];
      assert s[|s| - 1] in s;
      EdgesAlternate(init);
      if init != [] {
        assert init[|init| - 1] == s[|s| - 2] && init[0] == s[0] && s[|s| - 2] in s;
      } else {
        assert Edges(init, Down) == [] && Edges(init, Up) == [];
      }
    }
  }

  /** Transition k enters the state. */
  predicate Enters(s: seq<Transition>, state: State, k: nat) {
    k < |s| && s[k].state == state && (if k == 0 then state != Unknown else s[k - 1].state != state)
  }

  /** The edges are the times of exactly the transitions that enter the state, in order. */
  lemma {:induction false} EdgesEnter(s: seq<Transition>, state: State) returns (at: seq<nat>)
    ensures Ascending(at) && forall k: nat :: k in at <==> Enters(s, state, k)
    ensures |Edges(s, state)| == |at|
    ensures forall i :: 0 <= i < |at| ==> at[i] < |s| && Edges(s, state)[i] == s[at[i]].time
  {
    at := [];
    if s != [] {
      var n := |s| - 1;
      at := EdgesEnter(s[..n], state);
      forall k: nat | k in at ensures k < n { assert Enters(s[..n], state, k); }
      assert forall i :: 0 <= i < |at| ==> at[i] in at;
      forall k: nat | k < n ensures Enters(s, state, k) <==> Enters(s[..n], state, k) {}
      if IsEdge(s) && s[n].state == state { at := at + [n]; }
    }
  }

  // ------------------------------------------------- the last change and the last outage

  /** The transition that began the current state. */
  function LastEdge(s: seq<Transition>): Option<Transition> {
    if s == [] then None else if IsEdge(s) then Some(s[|s| - 1]) else LastEdge(s[..|s| - 1])
  }

  /** It is in the current state and so is everything after it; the one before it, if any, is not. */
  ghost predicate StartsState(s: seq<Transition>, m: nat) {
    && m < |s| && (forall k :: m <= k < |s| ==> s[k].state == s[m].state)
    && (m > 0 ==> s[m - 1].state != s[m].state)
  }

  lemma {:induction false} LastEdgeStarts(s: seq<Transition>) returns (m: nat)
    requires Toggles(s) && s != []
    ensures StartsState(s, m) && LastEdge(s) == Some(s[m])
  {
    var n := |s| - 1;
    assert s[n] in s;
    if IsEdge(s) {
      m := n;
    } else {
      assert s[n - 1] in s;
      m := LastEdgeStarts(s[..n]);
    }
  }

  function LastTime(times: seq<Option<int>>): Option<int> {
    if times == [] then None else times[|times| - 1]
  }

  /** How long the last outage took that an up edge ended with both times known. */
  function Outage(s: seq<Transition>): Option<int> {
    if s == [] then None
    else
      var init, last := s[..|s| - 1], s[|s| - 1];
      var since := LastTime(Edges(init, Down));
      if IsEdge(s) && last.state == Up && since.Some? && last.time.Some? then Some(last.time.value - since.value)
      else Outage(init)
  }

  ghost predicate AllTimed(s: seq<Transition>) {
    forall t :: t in s ==> t.time.Some?
  }

  /** The down edges that an up edge has ended. */
  function Ended(s: seq<Transition>): int {
    |Edges(s, Down)| - if s != [] && s[|s| - 1].state == Down then 1 else 0
  }

  ghost predicate TimeIn(s: seq<Transition>, x: Option<int>) {
    x.Some? && exists t :: t in s && t.time == x
  }

  lemma TimeInLonger(s: seq<Transition>, t: Transition, x: Option<int>)
    requires TimeIn(s, x)
    ensures TimeIn(s + [t], x)
  {
    var u :| u in s && u.time == x;
    assert u in s + [t];
  }

  lemma {:induction false} EdgesTimed(s: seq<Transition>, state: State)
    requires AllTimed(s)
    ensures forall x :: x in Edges(s, state) ==> TimeIn(s, x)
  {
    if s != [] {
      var init, last := s[..|s| - 1], s[|s| - 1];
      assert s == init + [last] && last in s;
      EdgesTimed(init, state);
      forall x | x in Edges(s, state) ensures TimeIn(s, x) {
        if x in Edges(init, state) { TimeInLonger(init, last, x); }
      }
    }
  }

  /** The outage is the time of the last up edge less that of the down edge it ended. */
  ghost predicate LastPair(downs: seq<Option<int>>, ups: seq<Option<int>>, ended: int, outage: Option<int>) {
    && 0 <= ended <= |downs| && (ended == 0 <==> outage.None?)
    && (ended > 0 ==> ups != [] && LastTime(ups).Some? && downs[ended - 1].Some?
                      && outage.value == LastTime(ups).value - downs[ended - 1].value)
  }

  /** So it is with every time known. */
  lemma {:induction false} OutageIsLastPair(s: seq<Transition>)
    requires Toggles(s) && AllTimed(s)
    ensures LastPair(Edges(s, Down), Edges(s, Up), Ended(s), Outage(s))
  {
    if s != [] {
      var n := |s| - 1;
      var init := s[..n];
      assert s[n] in s && forall t :: t in init ==> t in s;
      OutageIsLastPair(init);
      LastDownTimed(init);
      assert init != [] ==> init[|init| - 1] == s[n - 1] && s[n - 1] in s;
      var downs, ups := Edges(init, Down), Edges(init, Up);
      if IsEdge(s) { EdgeExtends(s); } else { NoEdgeKeeps(s); }
      hide Toggles, AllTimed, Edges, Outage, TimeIn;
    }
  }

  lemma EdgeExtends(s: seq<Transition>)
    requires IsEdge(s)
    ensures var init, last := s[..|s| - 1], s[|s| - 1];
            && (forall x :: Edges(s, x) == Edges(init, x) + if last.state == x then [last.time] else [])
            && Outage(s) == var since := LastTime(Edges(init, Down));
                            if last.state == Up && since.Some? && last.time.Some?
                            then Some(last.time.value - since.value) else Outage(init)
  {
  }

  lemma NoEdgeKeeps(s: seq<Transition>)
    requires s != [] && !IsEdge(s)
    ensures Outage(s) == Outage(s[..|s| - 1]) && forall x :: Edges(s, x) == Edges(s[..|s| - 1], x)
  {
  }

  lemma LastDownTimed(s: seq<Transition>)
    requires AllTimed(s)
    ensures Edges(s, Down) != [] ==> LastTime(Edges(s, Down)).Some? && TimeIn(s, LastTime(Edges(s, Down)))
  {
    EdgesTimed(s, Down);
    var downs := Edges(s, Down);
    assert downs != [] ==> downs[|downs| - 1] in downs;
  }

  /** In chronological order no outage is negative. */
  lemma {:induction false} OutageNotNegative(s: seq<Transition>)
    requires AllTimed(s) && SortedBy(Chronological, s)
    ensures Outage(s).Some? ==> Outage(s).value >= 0
  {
    if s != [] {
      var n := |s| - 1;
      assert forall t :: t in s[..n] ==> t in s;
      OutageNotNegative(s[..n]);
      LastDownTimed(s[..n]);
      var since := LastTime(Edges(s[..n], Down));
      if Edges(s[..n], Down) != [] {
        TimeBeforeLast(s, since);
      }
      hide AllTimed, SortedBy, Edges;
    }
  }

  lemma TimeBeforeLast(s: seq<Transition>, x: Option<int>)
    requires s != [] && AllTimed(s) && SortedBy(Chronological, s) && TimeIn(s[..|s| - 1], x)
    ensures s[|s| - 1].time.Some? && x.value <= s[|s| - 1].time.value
  {
    var n := |s| - 1;
    var t :| t in s[..n] && t.time == x;
    var k :| 0 <= k < n && s[k] == t;
    assert s[n] in s && Chronological(s[k], s[n]);
  }

  // -------------------------------------------------------------------- the summary

  datatype Status = Flapping | Steady | Recovered | Active

  datatype Summary = Summary(status: Status, current: State, downs: nat, ups: nat, firstDown: Option<Option<int>>,
                             lastChange: Option<Transition>, outage: Option<int>)

  /** The collapsing loop of `_state_for`. */
  method Collapse(s: seq<Transition>)
    returns (downs: seq<Option<int>>, ups: nat, current: State, change: Option<Transition>, outage: Option<int>)
    requires Toggles(s)
    ensures downs == Edges(s, Down) && ups == |Edges(s, Up)|
    ensures current == if s == [] then Unknown else s[|s| - 1].state
    ensures change == LastEdge(s) && outage == Outage(s)
  {
    downs, ups, current, change, outage := [], 0, Unknown, None, None;
    var lastDownAt: Option<int> := None;
    for i := 0 to |s|
      invariant downs == Edges(s[..i], Down) && ups == |Edges(s[..i], Up)|
      invariant current == if i == 0 then Unknown else s[i - 1].state
      invariant change == LastEdge(s[..i]) && outage == Outage(s[..i]) && lastDownAt == LastTime(downs)
    {
      ghost var seen := s[..i + 1];
      assert seen[..|seen| - 1] == s[..i] && seen[|seen| - 1] == s[i] && s[i] in s;
      assert IsEdge(seen) <==> s[i].state != current;
      if s[i].state != current {
        current, change := s[i].state, Some(s[i]);
        if current == Down {
          downs, lastDownAt := downs + [s[i].time], s[i].time;
        } else {
          ups := ups + 1;
          if lastDownAt.Some? && s[i].time.Some? {
            outage := Some(s[i].time.value - lastDownAt.value);
          }
        }
      }
    }
    assert s[..|s|] == s;
  }

  /** `_state_for` */
  method StateFor(ts: seq<Transition>, threshold: nat, window: int) returns (r: Summary)
    requires Toggles(ts) && threshold > 0
    ensures |InOrder(ts)| == |ts| && IsInOrder(ts, InOrder(ts))
    ensures r.downs == |Edges(InOrder(ts), Down)| && r.ups == |Edges(InOrder(ts), Up)|
    ensures -1 <= r.downs - r.ups <= 1
    ensures r.current == if ts == [] then Unknown else InOrder(ts)[|ts| - 1].state
    ensures r.status == Flapping <==> Flaps(Edges(InOrder(ts), Down), threshold, window)
    ensures r.status == Steady <==> r.downs == 0
    ensures r.status == Active ==> r.current == Down && r.downs > 0
    ensures r.status == Recovered ==> r.current == Up && r.downs > 0
    ensures r.firstDown == if r.downs == 0 then None else Some(Edges(InOrder(ts), Down)[0])
    ensures ts == [] ==> r.lastChange == None
    ensures ts != [] ==> exists m: nat :: StartsState(InOrder(ts), m) && r.lastChange == Some(InOrder(ts)[m])
    ensures r.outage == if r.status == Active then None else Outage(InOrder(ts))
    ensures AllTimed(ts) && r.status == Recovered ==> r.outage.Some? && r.outage.value >= 0
  {
    var s := InOrder(ts);
    InOrderKeeps(ts);
    var downs, ups, current, change, outage := Collapse(s);
    EdgesAlternate(s);
    var flapping := IsFlapping(downs, threshold, window);
    var status := if flapping then Flapping
                  else if downs == [] then Steady
                  else if current == Up then Recovered
                  else Active;
    r := Summary(status, current, |downs|, ups, if downs == [] then None else Some(downs[0]), change,
                 if status == Active then None else outage);
    LastStateKnown(ts);
    RecoveredOutage(ts);
  }

  lemma LastStateKnown(ts: seq<Transition>)
    requires Toggles(ts)
    ensures |InOrder(ts)| == |ts|
    ensures ts != [] ==> !InOrder(ts)[|ts| - 1].state.Unknown?
    ensures ts == [] ==> LastEdge(InOrder(ts)) == None
    ensures ts != [] ==> exists m: nat :: StartsState(InOrder(ts), m) && LastEdge(InOrder(ts)) == Some(InOrder(ts)[m])
  {
    InOrderKeeps(ts);
    var s := InOrder(ts);
    if s != [] {
      assert s[|s| - 1] in s;
      var m := LastEdgeStarts(s);
    }
  }

  /** With every time known, an entity that is up again after a down edge has its last outage measured. */
  lemma RecoveredOutage(ts: seq<Transition>)
    requires Toggles(ts)
    ensures var s := InOrder(ts);
            AllTimed(ts) && s != [] && s[|s| - 1].state == Up && Edges(s, Down) != [] ==>
              Outage(s).Some? && Outage(s).value >= 0
  {
    InOrderKeeps(ts);
    if AllTimed(ts) {
      OutageIsLastPair(InOrder(ts));
      OutageNotNegative(InOrder(ts));
    }
  }

  lemma ArrivalTotal()
    ensures Total(Arrived) && Total(Chronological)
  {
  }

  lemma InOrderKeeps(ts: seq<Transition>)
    requires Toggles(ts)
    ensures Toggles(InOrder(ts)) && |InOrder(ts)| == |ts|
    ensures AllTimed(ts) ==> AllTimed(InOrder(ts)) && SortedBy(Chronological, InOrder(ts))
    ensures IsInOrder(ts, InOrder(ts))
  {
    ArrivalTotal();
    var s := InOrder(ts);
    if forall t :: t in ts ==> t.time.Some? {
      StableSortSorts(Chronological, ts);
    } else {
      StableSortSorts(Arrived, ts);
    }
    SameElements(s, ts);
    if AllTimed(ts) {
      forall i, j | 0 <= i < j < |s|
        ensures s[i].time.Some? && s[j].time.Some?
        ensures s[i].time.value < s[j].time.value
                || (s[i].time.value == s[j].time.value && s[i].arrival <= s[j].arrival)
      {
        assert s[i] in s && s[j] in s && Chronological(s[i], s[j]);
      }
    } else {
      forall i, j | 0 <= i < j < |s| ensures s[i].arrival <= s[j].arrival { assert Arrived(s[i], s[j]); }
    }
  }

  lemma {:induction false} SinceToggles(h: History, cap: nat, k: nat)
    requires UpOrDown(h)
    ensures Toggles(Since(h, cap, k))
  {
    if h != [] {
      assert LastOf(h) in h;
      assert forall u :: u in InitOf(h) ==> u in h;
      SinceToggles(InitOf(h), cap, k);
    }
  }

  /** Whatever the stream, a tracked entity's transitions can be collapsed. */
  lemma TrackedToggles(t: Tracker, k: nat)
    requires t.Valid() && k in t.slots
    ensures Toggles(t.slots[k].transitions)
  {
    assert k in t.slots.Keys;
    assert SlotIs(t.history, t.maxEntities, t.maxTransitions, t.slots, k);
    SinceToggles(t.history, t.maxEntities, k);
  }
}
