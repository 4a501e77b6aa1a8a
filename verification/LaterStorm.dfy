/** Which overflowed incidents are the later outage (causal.py): gap clusters, and the choice
    of the cluster that leftovers of an earlier burst may not displace. */
module LaterStorm {
  import opened Options

  datatype Category = Config | Routing | Other(n: nat)

  datatype Severity = Critical | High | Medium | Low | Info

  /** A classified event as the timeline sees it; `id` is the object's identity, times are in
      microseconds, hosts are ranked alphabetically. */
  datatype Row = Row(id: nat, category: Category, severity: Severity, time: Option<int>, host: nat)

  const CLUSTER_GAP: int := 60_000_000
  const INCIDENT_FLOOR: nat := 8

  /** `_event_gap_seconds`: next to an unknown stamp there is no gap. */
  function Gap(a: Row, b: Row): int {
    match (a.time, b.time)
    case (Some(x), Some(y)) => if y < x then x - y else y - x
    case _ => 0
  }

  // ----------------------------------------------------------------- clusters

  function Clusters(rows: seq<Row>): (r: seq<seq<Row>>)
    ensures rows != [] ==> r != []
  {
    if |rows| == 0 then []
    else if |rows| == 1 then [[rows[0]]]
    else
      var n := |rows| - 1;
      var before := Clusters(rows[..n]);
      assert |rows[..n]| == n && rows[..n] != [];
      if Gap(rows[n - 1], rows[n]) >= CLUSTER_GAP then before + [[rows[n]]]
      else before[|before| - 1 := before[|before| - 1] + [rows[n]]]
  }

  method GapClusters(rows: seq<Row>) returns (clusters: seq<seq<Row>>)
    ensures clusters == Clusters(rows)
  {
    if rows == [] {
      return [];
    }
    clusters := [[rows[0]]];
    assert rows[..1] == [rows[0]];
    for i := 1 to |rows|
      invariant clusters == Clusters(rows[..i])
    {
      ghost var upTo := rows[..i + 1];
      assert upTo[..i] == rows[..i] && upTo[i - 1] == rows[i - 1] && upTo[i] == rows[i];
      if Gap(rows[i - 1], rows[i]) >= CLUSTER_GAP {
        clusters := clusters + [[rows[i]]];
      } else {
        var last := |clusters| - 1;
        clusters := clusters[last := clusters[last] + [rows[i]]];
      }
    }
    assert rows[..|rows|] == rows;
  }

  /** c is a non-empty contiguous run of rows. */
  ghost predicate SliceAt(c: seq<Row>, rows: seq<Row>, lo: nat) {
    c != [] && lo + |c| <= |rows| && c == rows[lo..lo + |c|]
  }

  ghost predicate IsSlice(c: seq<Row>, rows: seq<Row>) {
    exists lo: nat :: SliceAt(c, rows, lo)
  }

  ghost predicate AllSlices(clusters: seq<seq<Row>>, rows: seq<Row>) {
    forall k :: 0 <= k < |clusters| ==> IsSlice(clusters[k], rows)
  }

  /** c is what rows ends with */
  ghost predicate IsSuffix(c: seq<Row>, rows: seq<Row>) {
    c != [] && |c| <= |rows| && c == rows[|rows| - |c|..]
  }

  lemma SuffixIsSlice(c: seq<Row>, rows: seq<Row>)
    requires IsSuffix(c, rows)
    ensures IsSlice(c, rows)
  {
    assert SliceAt(c, rows, |rows| - |c|);
  }

  lemma SuffixGrows(c: seq<Row>, rows: seq<Row>, e: Row)
    requires IsSuffix(c, rows)
    ensures IsSuffix(c + [e], rows + [e])
  {
    var lo := |rows| - |c|;
    assert (rows + [e])[lo..] == rows[lo..] + [e];
  }

  lemma SliceStays(c: seq<Row>, rows: seq<Row>, e: Row)
    requires IsSlice(c, rows)
    ensures IsSlice(c, rows + [e])
  {
    var lo: nat :| SliceAt(c, rows, lo);
    assert (rows + [e])[lo..lo + |c|] == rows[lo..lo + |c|];
    assert SliceAt(c, rows + [e], lo);
  }

  lemma {:induction false} ClustersAreSlices(rows: seq<Row>)
    ensures AllSlices(Clusters(rows), rows)
    ensures rows != [] ==> IsSuffix(Clusters(rows)[|Clusters(rows)| - 1], rows)
  {
    hide AllSlices, IsSuffix, Gap;
    if |rows| <= 1 {
      SingleSlice(rows);
    } else {
      var n := |rows| - 1;
      ClustersAreSlices(rows[..n]);
      assert rows == rows[..n] + [rows[n]];
      SlicesExtend(Clusters(rows[..n]), rows[..n], rows[n]);
    }
  }

  lemma SingleSlice(rows: seq<Row>)
    requires |rows| <= 1
    ensures AllSlices(Clusters(rows), rows)
    ensures rows != [] ==> IsSuffix(Clusters(rows)[|Clusters(rows)| - 1], rows)
  {
    if |rows| == 1 {
      SuffixIsSlice([rows[0]], rows);
    }
  }

  lemma SlicesExtend(before: seq<seq<Row>>, rows: seq<Row>, e: Row)
    requires before != [] && AllSlices(before, rows) && IsSuffix(before[|before| - 1], rows)
    ensures AllSlices(before + [[e]], rows + [e]) && IsSuffix([e], rows + [e])
    ensures AllSlices(before[|before| - 1 := before[|before| - 1] + [e]], rows + [e])
    ensures IsSuffix(before[|before| - 1] + [e], rows + [e])
  {
    SuffixGrows(before[|before| - 1], rows, e);
    assert IsSuffix([e], rows + [e]);
    hide IsSlice, IsSuffix;
    SuffixIsSlice([e], rows + [e]);
    SuffixIsSlice(before[|before| - 1] + [e], rows + [e]);
    forall k | 0 <= k < |before| ensures IsSlice(before[k], rows + [e]) {
      SliceStays(before[k], rows, e);
    }
  }

  // --------------------------------------------- a later storm of a leftover category

  predicate IsStormRow(e: Row) {
    e.category == Routing && (e.severity == Critical || e.severity == High)
  }

  predicate IsStormish(c: seq<Row>) {
    exists e :: e in c && IsStormRow(e)
  }

  predicate NewHostStorm(c: seq<Row>, hosts: set<nat>) {
    exists e :: e in c && e.host !in hosts && IsStormRow(e)
  }

  predicate LeftoverHostOnly(c: seq<Row>, cats: set<Category>, hosts: set<nat>) {
    forall e :: e in c && e.category in cats ==> e.host in hosts
  }

  /** What is known of the incidents inside the display cap. */
  datatype Leftover = Leftover(cats: set<Category>, hosts: set<nat>, last: Row)

  function LeftoverOf(rows: seq<Row>): Leftover
    requires rows != []
  {
    Leftover(set e | e in rows :: e.category, set e | e in rows :: e.host, rows[|rows| - 1])
  }

  /** A burst of the leftover hosts that still abuts the leftovers. */
  predicate IsOverflow(c: seq<Row>, left: Leftover) {
    && c != []
    && c[0].category in left.cats
    && LeftoverHostOnly(c, left.cats, left.hosts)
    && Gap(left.last, c[0]) < CLUSTER_GAP
  }

  function SkipOverflow(clusters: seq<seq<Row>>, left: Leftover): seq<seq<Row>> {
    if |clusters| > 0 && IsOverflow(clusters[0], left) then SkipOverflow(clusters[1..], left) else clusters
  }

  function Stormish(clusters: seq<seq<Row>>): seq<seq<Row>> {
    if |clusters| == 0 then []
    else if IsStormish(clusters[0]) then [clusters[0]] + Stormish(clusters[1..]) else Stormish(clusters[1..])
  }

  function WithNewHost(clusters: seq<seq<Row>>, hosts: set<nat>): seq<seq<Row>> {
    if |clusters| == 0 then []
    else if NewHostStorm(clusters[0], hosts) then [clusters[0]] + WithNewHost(clusters[1..], hosts)
    else WithNewHost(clusters[1..], hosts)
  }

  function StripLeftover(c: seq<Row>, left: Leftover): seq<Row> {
    if |c| > 1 && c[0].category in left.cats && c[0].host in left.hosts && NewHostStorm(c[1..], left.hosts)
    then StripLeftover(c[1..], left)
    else c
  }

  /** Of the clusters after the overflow: the first one with a storm of a new host or, without any,
      the first one with a storm. */
  function PickStorm(left: Leftover, remaining: seq<seq<Row>>): seq<Row>
    requires Stormish(remaining) != []
  {
    var stormish := Stormish(remaining);
    var newer := WithNewHost(stormish, left.hosts);
    StripLeftover(if |newer| > 0 then newer[0] else stormish[0], left)
  }

  /** `_same_category_later_storm` */
  function SameCategoryStorm(left: Leftover, missing: seq<Row>): Option<seq<Row>> {
    if Routing !in left.cats then None
    else
      var remaining := SkipOverflow(Clusters(missing), left);
      if Stormish(remaining) == [] then None else Some(PickStorm(left, remaining))
  }

  method SameCategoryLaterStorm(left: Leftover, missing: seq<Row>) returns (storm: Option<seq<Row>>)
    ensures storm == SameCategoryStorm(left, missing)
  {
    if Routing !in left.cats {
      return None;
    }
    var clusters := GapClusters(missing);
    var idx := 0;
    while idx < |clusters| && IsOverflow(clusters[idx], left)
      invariant idx <= |clusters| && SkipOverflow(clusters[idx..], left) == SkipOverflow(clusters, left)
    {
      assert clusters[idx..][1..] == clusters[idx + 1..];
      idx := idx + 1;
    }
    var stormish := Stormish(clusters[idx..]);
    if |stormish| == 0 {
      return None;
    }
    var newer := WithNewHost(stormish, left.hosts);
    var chosen := if |newer| > 0 then newer[0] else stormish[0];
    ghost var whole := chosen;
    while |chosen| > 1 && chosen[0].category in left.cats && chosen[0].host in left.hosts
          && NewHostStorm(chosen[1..], left.hosts)
      invariant StripLeftover(chosen, left) == StripLeftover(whole, left)
      decreases |chosen|
    {
      chosen := chosen[1..];
    }
    storm := Some(chosen);
  }

  // ------------------------------------------------------------ the chosen storm

  function SkipCategories(rows: seq<Row>, cats: set<Category>): seq<Row> {
    if |rows| > 0 && rows[0].category in cats then SkipCategories(rows[1..], cats) else rows
  }

  function OtherHeaded(clusters: seq<seq<Row>>, cats: set<Category>): seq<seq<Row>> {
    if |clusters| == 0 then []
    else if clusters[0] != [] && clusters[0][0].category !in cats
    then [clusters[0]] + OtherHeaded(clusters[1..], cats)
    else OtherHeaded(clusters[1..], cats)
  }

  predicate IsIncident(e: Row) {
    e.category != Config
  }

  function Incidents(rows: seq<Row>): seq<Row> {
    if |rows| == 0 then []
    else if IsIncident(rows[0]) then [rows[0]] + Incidents(rows[1..]) else Incidents(rows[1..])
  }

  function Min(a: nat, b: nat): nat {
    if a < b then a else b
  }

  /** `_later_storm_incidents` */
  function ChosenStorm(prefix: seq<Row>, missing: seq<Row>): seq<Row> {
    if Incidents(prefix) == [] || missing == [] then missing
    else
      var left := LeftoverOf(Incidents(prefix));
      var same := SameCategoryStorm(left, missing);
      if same.Some? then same.value
      else
        var later := SkipCategories(missing, left.cats);
        if later == [] then missing[|missing| - Min(INCIDENT_FLOOR, |missing|)..]
        else
          var preferred := OtherHeaded(Clusters(later), left.cats);
          if preferred != [] then preferred[|preferred| - 1] else Clusters(later)[|Clusters(later)| - 1]
  }

  method LaterStormIncidents(prefix: seq<Row>, missing: seq<Row>) returns (storm: seq<Row>)
    ensures storm == ChosenStorm(prefix, missing) && IsLaterOutage(prefix, missing, storm)
  {
    ChosenIsLaterOutage(prefix, missing);
    hide IsLaterOutage, SameCategoryStorm, Clusters, OtherHeaded;
    var leftover := Incidents(prefix);
    if leftover == [] || missing == [] {
      return missing;
    }
    var left := LeftoverOf(leftover);
    var same := SameCategoryLaterStorm(left, missing);
    if same.Some? {
      return same.value;
    }
    var idx := 0;
    while idx < |missing| && missing[idx].category in left.cats
      invariant idx <= |missing| && SkipCategories(missing[idx..], left.cats) == SkipCategories(missing, left.cats)
    {
      assert missing[idx..][1..] == missing[idx + 1..];
      idx := idx + 1;
    }
    var later := missing[idx..];
    if later == [] {
      return missing[|missing| - Min(INCIDENT_FLOOR, |missing|)..];
    }
    var clusters := GapClusters(later);
    var preferred := OtherHeaded(clusters, left.cats);
    if preferred == [] {
      preferred := clusters;
    }
    return preferred[|preferred| - 1];
  }

  lemma SliceOfSlice(c: seq<Row>, mid: seq<Row>, rows: seq<Row>)
    requires IsSlice(c, mid) && IsSlice(mid, rows)
    ensures IsSlice(c, rows)
  {
    var a: nat :| SliceAt(c, mid, a);
    var b: nat :| SliceAt(mid, rows, b);
    forall i | 0 <= i < |c| ensures c[i] == rows[b + a + i] {
      assert c[i] == mid[a + i];
    }
    assert SliceAt(c, rows, b + a);
  }

  lemma TailIsSlice(rows: seq<Row>, lo: nat)
    requires lo < |rows|
    ensures IsSlice(rows[lo..], rows)
  {
    assert SliceAt(rows[lo..], rows, lo);
  }

  lemma {:induction false} SkipOverflowSlices(clusters: seq<seq<Row>>, left: Leftover, rows: seq<Row>)
    requires AllSlices(clusters, rows)
    ensures AllSlices(SkipOverflow(clusters, left), rows)
  {
    if |clusters| > 0 && IsOverflow(clusters[0], left) {
      SkipOverflowSlices(clusters[1..], left, rows);
    }
  }

  lemma {:induction false} StormishSlices(clusters: seq<seq<Row>>, rows: seq<Row>)
    requires AllSlices(clusters, rows)
    ensures AllSlices(Stormish(clusters), rows)
  {
    if |clusters| > 0 { StormishSlices(clusters[1..], rows); }
  }

  lemma {:induction false} NewHostSlices(clusters: seq<seq<Row>>, hosts: set<nat>, rows: seq<Row>)
    requires AllSlices(clusters, rows)
    ensures AllSlices(WithNewHost(clusters, hosts), rows)
  {
    if |clusters| > 0 { NewHostSlices(clusters[1..], hosts, rows); }
  }

  lemma {:induction false} OtherHeadedSlices(clusters: seq<seq<Row>>, cats: set<Category>, rows: seq<Row>)
    requires AllSlices(clusters, rows)
    ensures AllSlices(OtherHeaded(clusters, cats), rows)
  {
    if |clusters| > 0 { OtherHeadedSlices(clusters[1..], cats, rows); }
  }

  lemma {:induction false} StripIsSlice(c: seq<Row>, left: Leftover)
    requires c != []
    ensures IsSlice(StripLeftover(c, left), c)
  {
    assert SliceAt(c, c, 0);
    if StripLeftover(c, left) != c {
      StripIsSlice(c[1..], left);
      TailIsSlice(c, 1);
      SliceOfSlice(StripLeftover(c, left), c[1..], c);
    }
  }

  lemma {:induction false} SkipCategoriesTail(rows: seq<Row>, cats: set<Category>)
    ensures SkipCategories(rows, cats) == [] || IsSlice(SkipCategories(rows, cats), rows)
  {
    if |rows| > 0 {
      assert SliceAt(rows, rows, 0);
      if rows[0].category in cats && SkipCategories(rows[1..], cats) != [] {
        SkipCategoriesTail(rows[1..], cats);
        assert |rows| > 1;
        TailIsSlice(rows, 1);
        SliceOfSlice(SkipCategories(rows, cats), rows[1..], rows);
      }
    }
  }

  lemma SameCategoryIsSlice(left: Leftover, missing: seq<Row>)
    requires SameCategoryStorm(left, missing).Some?
    ensures IsSlice(SameCategoryStorm(left, missing).value, missing)
  {
    ClustersAreSlices(missing);
    SkipOverflowSlices(Clusters(missing), left, missing);
    var remaining := SkipOverflow(Clusters(missing), left);
    StormishSlices(remaining, missing);
    var stormish := Stormish(remaining);
    NewHostSlices(stormish, left.hosts, missing);
    var newer := WithNewHost(stormish, left.hosts);
    var chosen := if |newer| > 0 then newer[0] else stormish[0];
    assert IsSlice(chosen, missing);
    StripIsSlice(chosen, left);
    SliceOfSlice(StripLeftover(chosen, left), chosen, missing);
  }

  /** Whatever branch is taken, the chosen storm is a contiguous run of the overflowed incidents. */
  lemma ChosenStormIsSlice(prefix: seq<Row>, missing: seq<Row>)
    requires missing != []
    ensures IsSlice(ChosenStorm(prefix, missing), missing)
  {
    assert SliceAt(missing, missing, 0);
    if Incidents(prefix) != [] {
      var left := LeftoverOf(Incidents(prefix));
      var later := SkipCategories(missing, left.cats);
      if SameCategoryStorm(left, missing).Some? {
        SameCategoryIsSlice(left, missing);
      } else if later == [] {
        TailIsSlice(missing, |missing| - Min(INCIDENT_FLOOR, |missing|));
      } else {
        SkipCategoriesTail(missing, left.cats);
        ClustersAreSlices(later);
        OtherHeadedSlices(Clusters(later), left.cats, later);
        SliceOfSlice(ChosenStorm(prefix, missing), later, missing);
      }
    }
  }

  // ------------------------------------------------------- what the choice means

  function Flatten(clusters: seq<seq<Row>>): seq<Row> {
    if |clusters| == 0 then [] else Flatten(clusters[..|clusters| - 1]) + clusters[|clusters| - 1]
  }

  ghost predicate NearAt(c: seq<Row>, i: nat) {
    i + 1 < |c| ==> Gap(c[i], c[i + 1]) < CLUSTER_GAP
  }

  /** No gap of a minute or more inside. */
  ghost predicate Tight(c: seq<Row>) {
    c != [] && forall i :: NearAt(c, i)
  }

  /** A gap of a minute or more between the clusters k and k + 1. */
  ghost predicate Apart(clusters: seq<seq<Row>>, k: nat) {
    k + 1 < |clusters| && clusters[k] != [] && clusters[k + 1] != [] ==>
      Gap(clusters[k][|clusters[k]| - 1], clusters[k + 1][0]) >= CLUSTER_GAP
  }

  lemma TightGrows(c: seq<Row>, e: Row)
    requires Tight(c) && Gap(c[|c| - 1], e) < CLUSTER_GAP
    ensures Tight(c + [e])
  {
    forall i ensures NearAt(c + [e], i) { assert NearAt(c, i); }
  }

  lemma {:induction false} ClustersFlatten(rows: seq<Row>)
    ensures Flatten(Clusters(rows)) == rows
  {
    if |rows| == 1 {
      assert Clusters(rows)[..0] == [];
    } else if |rows| > 1 {
      var n := |rows| - 1;
      ClustersFlatten(rows[..n]);
      assert rows == rows[..n] + [rows[n]];
      FlattenExtends(Clusters(rows[..n]), rows[n]);
    }
  }

  lemma FlattenExtends(before: seq<seq<Row>>, e: Row)
    requires before != []
    ensures Flatten(before + [[e]]) == Flatten(before) + [e]
    ensures Flatten(before[|before| - 1 := before[|before| - 1] + [e]]) == Flatten(before) + [e]
  {
    var grown := before[|before| - 1 := before[|before| - 1] + [e]];
    assert (before + [[e]])[..|before|] == before;
    assert grown[..|grown| - 1] == before[..|before| - 1];
  }

  ghost predicate AllTight(clusters: seq<seq<Row>>) {
    forall k :: 0 <= k < |clusters| ==> Tight(clusters[k])
  }

  lemma {:induction false} ClustersTight(rows: seq<Row>)
    ensures AllTight(Clusters(rows))
  {
    if |rows| == 1 {
      OneRowTight(rows[0]);
    } else if |rows| > 1 {
      var n := |rows| - 1;
      ClustersTight(rows[..n]);
      LastClusterEnds(rows[..n]);
      TightExtends(Clusters(rows[..n]), rows[n]);
    }
  }

  lemma LastClusterEnds(rows: seq<Row>)
    requires rows != []
    ensures EndsWith(Clusters(rows), rows[|rows| - 1])
  {
    ClustersAreSlices(rows);
  }

  ghost predicate EndsWith(clusters: seq<seq<Row>>, e: Row) {
    clusters != [] && var last := clusters[|clusters| - 1]; last != [] && last[|last| - 1] == e
  }

  lemma TightExtends(before: seq<seq<Row>>, e: Row)
    requires AllTight(before) && before != [] && before[|before| - 1] != []
    ensures AllTight(before + [[e]])
    ensures var last := before[|before| - 1];
            Gap(last[|last| - 1], e) < CLUSTER_GAP ==> AllTight(before[|before| - 1 := last + [e]])
  {
    OneRowTight(e);
    var last := before[|before| - 1];
    if Gap(last[|last| - 1], e) < CLUSTER_GAP {
      LastGrowsTight(before, e);
    }
  }

  lemma OneRowTight(e: Row)
    ensures Tight([e])
  {
  }

  lemma LastGrowsTight(before: seq<seq<Row>>, e: Row)
    requires AllTight(before) && before != [] && before[|before| - 1] != []
    requires Gap(before[|before| - 1][|before[|before| - 1]| - 1], e) < CLUSTER_GAP
    ensures AllTight(before[|before| - 1 := before[|before| - 1] + [e]])
  {
    TightGrows(before[|before| - 1], e);
  }

  lemma {:induction false} ClustersApart(rows: seq<Row>)
    ensures forall k :: Apart(Clusters(rows), k)
  {
    if |rows| > 1 {
      var n := |rows| - 1;
      ClustersApart(rows[..n]);
      LastClusterEnds(rows[..n]);
      var before, c := Clusters(rows[..n]), Clusters(rows);
      forall k ensures Apart(c, k) { assert Apart(before, k); }
    }
  }

  /** The clusters are the rows, cut exactly at the gaps of a minute or more. */
  lemma ClustersCutAtGaps(rows: seq<Row>)
    ensures Flatten(Clusters(rows)) == rows
    ensures forall k :: 0 <= k < |Clusters(rows)| ==> Tight(Clusters(rows)[k])
    ensures forall k :: Apart(Clusters(rows), k)
  {
    ClustersFlatten(rows);
    ClustersTight(rows);
    ClustersApart(rows);
  }

  lemma {:induction false} StripKeepsStorm(c: seq<Row>, left: Leftover)
    ensures IsStormish(c) ==> IsStormish(StripLeftover(c, left))
    ensures NewHostStorm(c, left.hosts) ==> NewHostStorm(StripLeftover(c, left), left.hosts)
  {
    if StripLeftover(c, left) != c {
      StripKeepsStorm(c[1..], left);
      assert IsStormish(c[1..]);
    }
  }

  lemma {:induction false} StormishAre(clusters: seq<seq<Row>>)
    ensures forall c :: c in Stormish(clusters) <==> c in clusters && IsStormish(c)
  {
    if |clusters| > 0 { StormishAre(clusters[1..]); }
  }

  lemma {:induction false} WithNewHostAre(clusters: seq<seq<Row>>, hosts: set<nat>)
    ensures forall c :: c in WithNewHost(clusters, hosts) <==> c in clusters && NewHostStorm(c, hosts)
  {
    if |clusters| > 0 { WithNewHostAre(clusters[1..], hosts); }
  }

  /** A later storm of the leftover category always shows a high or critical routing row, and
      one of a device without leftovers as soon as any later cluster has one. */
  lemma SameCategoryIsStorm(left: Leftover, missing: seq<Row>)
    requires SameCategoryStorm(left, missing).Some?
    ensures var storm := SameCategoryStorm(left, missing).value;
            IsStormish(storm)
            && ((exists c :: c in SkipOverflow(Clusters(missing), left) && NewHostStorm(c, left.hosts)) ==>
                  NewHostStorm(storm, left.hosts))
  {
    var remaining := SkipOverflow(Clusters(missing), left);
    var stormish := Stormish(remaining);
    StormishAre(remaining);
    WithNewHostAre(stormish, left.hosts);
    var newer := WithNewHost(stormish, left.hosts);
    var chosen := if |newer| > 0 then newer[0] else stormish[0];
    assert stormish[0] in stormish && (|newer| > 0 ==> newer[0] in newer);
    StripKeepsStorm(chosen, left);
    if c :| c in remaining && NewHostStorm(c, left.hosts) {
      assert IsStormish(c) && c in stormish && c in newer;
    }
  }

  // ------------------------------------------ the choice, read off the rows themselves

  /** A known gap of a minute or more lies before row i. */
  predicate Cut(rows: seq<Row>, i: nat) {
    && 0 < i < |rows| && rows[i - 1].time.Some? && rows[i].time.Some?
    && var d := rows[i].time.value - rows[i - 1].time.value; d >= 60_000_000 || d <= -60_000_000
  }

  /** rows[lo..hi] runs from one such gap, or the first row, to the next one, or the last row. */
  ghost predicate Burst(rows: seq<Row>, lo: nat, hi: nat) {
    && lo < hi <= |rows| && (lo == 0 || Cut(rows, lo)) && (hi == |rows| || Cut(rows, hi))
    && forall i :: lo < i < hi ==> !Cut(rows, i)
  }

  /** The category of e is one of the incidents in the prefix. */
  ghost predicate OldCategory(prefix: seq<Row>, e: Row) {
    e.category != Config && exists x :: x in prefix && x.category == e.category
  }

  ghost predicate OldHost(prefix: seq<Row>, e: Row) {
    exists x :: x in prefix && x.category != Config && x.host == e.host
  }

  ghost predicate LastIncidentAt(prefix: seq<Row>, i: nat) {
    i < |prefix| && prefix[i].category != Config && forall k :: i < k < |prefix| ==> prefix[k].category == Config
  }

  /** A known distance of a minute or more. */
  predicate FarFrom(a: Row, b: Row) {
    && a.time.Some? && b.time.Some?
    && var d := b.time.value - a.time.value; d >= 60_000_000 || d <= -60_000_000
  }

  /** rows[lo..hi] only goes on with what the prefix ended with. */
  ghost predicate Overflowing(prefix: seq<Row>, rows: seq<Row>, lo: nat, hi: nat) {
    && lo < hi <= |rows| && OldCategory(prefix, rows[lo])
    && (forall i :: lo <= i < hi && OldCategory(prefix, rows[i]) ==> OldHost(prefix, rows[i]))
    && exists last: nat :: LastIncidentAt(prefix, last) && !FarFrom(prefix[last], rows[lo])
  }

  /** Every burst before `from` goes on with the prefix and the one at `from` does not. */
  ghost predicate OverflowEnds(prefix: seq<Row>, rows: seq<Row>, from: nat) {
    && (forall lo: nat, hi: nat :: Burst(rows, lo, hi) && lo < from ==> hi <= from && Overflowing(prefix, rows, lo, hi))
    && (from == |rows| || exists hi: nat :: Burst(rows, from, hi) && !Overflowing(prefix, rows, from, hi))
  }

  predicate Severe(e: Row) {
    e.category == Routing && (e.severity == Critical || e.severity == High)
  }

  ghost predicate SevereAt(rows: seq<Row>, k: nat) {
    k < |rows| && Severe(rows[k])
  }

  /** A severe routing row of a device without incidents in the prefix. */
  ghost predicate FreshAt(prefix: seq<Row>, rows: seq<Row>, k: nat) {
    k < |rows| && Severe(rows[k]) && !OldHost(prefix, rows[k])
  }

  /** k is the first fresh row from `from` on or, without any, the first severe one. */
  ghost predicate FirstSevere(prefix: seq<Row>, rows: seq<Row>, from: nat, k: nat) {
    && from <= k < |rows|
    && if exists f: nat :: from <= f && FreshAt(prefix, rows, f)
       then FreshAt(prefix, rows, k) && forall f: nat :: from <= f < k ==> !FreshAt(prefix, rows, f)
       else SevereAt(rows, k) && forall f: nat :: from <= f < k ==> !SevereAt(rows, f)
  }

  /** A burst with a fresh row starts at its first row that is not of an old category and host. */
  ghost predicate StartsAt(prefix: seq<Row>, rows: seq<Row>, lo: nat, s: nat, k: nat) {
    if FreshAt(prefix, rows, k) then
      && lo <= s <= k && !(OldCategory(prefix, rows[s]) && OldHost(prefix, rows[s]))
      && forall i :: lo <= i < s ==> OldCategory(prefix, rows[i]) && OldHost(prefix, rows[i])
    else s == lo
  }

  /** A later routing storm: the burst of the first severe row after the overflow. */
  ghost predicate IsLaterRoutingAt(
    prefix: seq<Row>, rows: seq<Row>, storm: seq<Row>, from: nat, k: nat, lo: nat, hi: nat, s: nat)
  {
    && OverflowEnds(prefix, rows, from) && FirstSevere(prefix, rows, from, k)
    && Burst(rows, lo, hi) && from <= lo <= k < hi && StartsAt(prefix, rows, lo, s, k) && s < hi
    && storm == rows[s..hi]
  }

  ghost predicate IsLaterRouting(prefix: seq<Row>, rows: seq<Row>, storm: seq<Row>) {
    exists from: nat, k: nat, lo: nat, hi: nat, s: nat :: IsLaterRoutingAt(prefix, rows, storm, from, k, lo, hi, s)
  }

  ghost predicate NoLaterRouting(prefix: seq<Row>, rows: seq<Row>) {
    || !(exists e :: e in prefix && e.category == Routing)
    || exists from: nat :: OverflowEnds(prefix, rows, from) && forall k: nat :: from <= k ==> !SevereAt(rows, k)
  }

  ghost predicate OldAt(prefix: seq<Row>, rows: seq<Row>, i: nat) {
    i < |rows| && OldCategory(prefix, rows[i])
  }

  ghost predicate NewAt(prefix: seq<Row>, rows: seq<Row>, i: nat) {
    i < |rows| && !OldCategory(prefix, rows[i])
  }

  /** The last burst that a new category opens, from the first row of a new category on. */
  ghost predicate IsLastOutageAt(prefix: seq<Row>, rows: seq<Row>, storm: seq<Row>, first: nat, lo: nat, hi: nat) {
    && NewAt(prefix, rows, first) && (forall i: nat :: i < first ==> OldAt(prefix, rows, i))
    && var later := rows[first..];
       && Burst(later, lo, hi) && storm == later[lo..hi] && NewAt(prefix, later, lo)
       && forall a: nat, b: nat :: Burst(later, a, b) && hi <= a ==> OldAt(prefix, later, a)
  }

  ghost predicate IsLastOutage(prefix: seq<Row>, rows: seq<Row>, storm: seq<Row>) {
    exists first: nat, lo: nat, hi: nat :: IsLastOutageAt(prefix, rows, storm, first, lo, hi)
  }

  // The clusters one after the other, from position `at` of the rows on.

  ghost predicate Tiles(clusters: seq<seq<Row>>, rows: seq<Row>, at: nat) {
    if clusters == [] then at == |rows|
    else
      && Burst(rows, at, at + |clusters[0]|) && clusters[0] == rows[at..at + |clusters[0]|]
      && Tiles(clusters[1..], rows, at + |clusters[0]|)
  }

  lemma {:induction false} FlattenPrefix(clusters: seq<seq<Row>>, k: nat)
    requires k < |clusters|
    ensures var a, b := |Flatten(clusters[..k])|, |Flatten(clusters[..k + 1])|;
            a + |clusters[k]| == b <= |Flatten(clusters)| && Flatten(clusters)[a..b] == clusters[k]
  {
    var init := clusters[..|clusters| - 1];
    assert clusters[..k + 1][..k] == clusters[..k];
    if k + 1 < |clusters| {
      FlattenPrefix(init, k);
      assert init[..k] == clusters[..k] && init[..k + 1] == clusters[..k + 1];
    } else {
      assert clusters[..k + 1] == clusters;
    }
  }

  /** Cluster k is the burst that its place among the rows says. */
  lemma ClusterIsBurst(rows: seq<Row>, k: nat)
    requires k < |Clusters(rows)|
    ensures var c := Clusters(rows);
            var a, b := |Flatten(c[..k])|, |Flatten(c[..k + 1])|;
            a + |c[k]| == b && Burst(rows, a, b) && c[k] == rows[a..b]
  {
    var c := Clusters(rows);
    ClustersCutAtGaps(rows);
    hide Clusters, Flatten;
    FlattenPrefix(c, k);
    assert Tight(c[k]) && c[..0] == [];
    var a, b := |Flatten(c[..k])|, |Flatten(c[..k + 1])|;
    TightIsUncut(rows, c[k], a);
    hide Cut, Tight;
    FlattenEmpty();
    if k > 0 { CutBetween(rows, k - 1); }
    if k + 1 < |c| {
      CutBetween(rows, k);
    } else {
      assert c[..k + 1] == c;
    }
  }

  lemma FlattenEmpty()
    ensures Flatten([]) == []
  {
  }

  lemma TightIsUncut(rows: seq<Row>, c: seq<Row>, a: nat)
    requires Tight(c) && a + |c| <= |rows| && c == rows[a..a + |c|]
    ensures forall i :: a < i < a + |c| ==> !Cut(rows, i)
  {
    forall i | a < i < a + |c| ensures !Cut(rows, i) {
      assert NearAt(c, i - 1 - a);
      assert c[i - 1 - a] == rows[i - 1] && c[i - a] == rows[i];
    }
  }

  lemma CutBetween(rows: seq<Row>, k: nat)
    requires k + 1 < |Clusters(rows)|
    ensures Cut(rows, |Flatten(Clusters(rows)[..k + 1])|)
  {
    var c := Clusters(rows);
    ClustersCutAtGaps(rows);
    hide Clusters, Flatten;
    FlattenPrefix(c, k);
    FlattenPrefix(c, k + 1);
    assert Tight(c[k]) && Tight(c[k + 1]) && Apart(c, k);
    var b := |Flatten(c[..k + 1])|;
    ApartIsCut(rows, c[k], c[k + 1], b);
  }

  lemma ApartIsCut(rows: seq<Row>, c: seq<Row>, d: seq<Row>, b: nat)
    requires c != [] && d != [] && |c| <= b && b + |d| <= |rows|
    requires c == rows[b - |c|..b] && d == rows[b..b + |d|] && Gap(c[|c| - 1], d[0]) >= CLUSTER_GAP
    ensures Cut(rows, b)
  {
    assert c[|c| - 1] == rows[b - 1] && d[0] == rows[b];
  }

  lemma {:induction false} ClustersTile(rows: seq<Row>, k: nat)
    requires k <= |Clusters(rows)|
    ensures Tiles(Clusters(rows)[k..], rows, |Flatten(Clusters(rows)[..k])|)
    decreases |Clusters(rows)| - k
  {
    var c := Clusters(rows);
    if k < |c| {
      ClusterIsBurst(rows, k);
      ClustersTile(rows, k + 1);
      assert c[k..][0] == c[k] && c[k..][1..] == c[k + 1..];
    } else {
      ClustersCutAtGaps(rows);
      assert c[..k] == c;
    }
  }

  lemma AllTiled(rows: seq<Row>)
    ensures Tiles(Clusters(rows), rows, 0)
  {
    ClustersTile(rows, 0);
    var c := Clusters(rows);
    assert c[..0] == [] && c[0..] == c;
  }

  lemma BurstUnique(rows: seq<Row>, lo: nat, hi: nat, a: nat, b: nat)
    requires Burst(rows, lo, hi) && Burst(rows, a, b) && lo <= a < hi
    ensures a == lo && b == hi
  {
  }

  lemma {:induction false} IncidentsAre(rows: seq<Row>)
    ensures forall e :: e in Incidents(rows) <==> e in rows && e.category != Config
  {
    if |rows| > 0 { IncidentsAre(rows[1..]); }
  }

  lemma {:induction false} LastIncident(rows: seq<Row>) returns (i: nat)
    requires Incidents(rows) != []
    ensures LastIncidentAt(rows, i) && rows[i] == Incidents(rows)[|Incidents(rows)| - 1]
  {
    if Incidents(rows[1..]) != [] {
      var k := LastIncident(rows[1..]);
      i := k + 1;
      forall j | i < j < |rows| ensures rows[j].category == Config { assert rows[1..][j - 1] == rows[j]; }
    } else {
      i := 0;
      IncidentsAre(rows[1..]);
      forall j | 0 < j < |rows| ensures rows[j].category == Config { assert rows[j] in rows[1..]; }
    }
  }

  lemma LeftoverMeans(prefix: seq<Row>, e: Row)
    requires Incidents(prefix) != []
    ensures var left := LeftoverOf(Incidents(prefix));
            && (e.category in left.cats <==> OldCategory(prefix, e))
            && (e.host in left.hosts <==> OldHost(prefix, e))
  {
    IncidentsAre(prefix);
  }

  lemma OverflowMeans(prefix: seq<Row>, rows: seq<Row>, lo: nat, hi: nat)
    requires Incidents(prefix) != [] && lo < hi <= |rows|
    ensures IsOverflow(rows[lo..hi], LeftoverOf(Incidents(prefix))) <==> Overflowing(prefix, rows, lo, hi)
  {
    HostsOverflow(prefix, rows, lo, hi);
    NearPrefix(prefix, rows[lo]);
    LeftoverMeans(prefix, rows[lo]);
    hide OldCategory, OldHost, LeftoverOf, Incidents, LeftoverHostOnly, LastIncidentAt, FarFrom, Gap;
    assert rows[lo..hi][0] == rows[lo];
  }

  lemma HostsOverflow(prefix: seq<Row>, rows: seq<Row>, lo: nat, hi: nat)
    requires Incidents(prefix) != [] && lo < hi <= |rows|
    ensures LeftoverHostOnly(rows[lo..hi], LeftoverOf(Incidents(prefix)).cats, LeftoverOf(Incidents(prefix)).hosts) <==>
            forall i :: lo <= i < hi && OldCategory(prefix, rows[i]) ==> OldHost(prefix, rows[i])
  {
    var left, c := LeftoverOf(Incidents(prefix)), rows[lo..hi];
    forall i | lo <= i < hi ensures rows[i] in c { assert c[i - lo] == rows[i]; }
    forall e: Row
      ensures (e.category in left.cats <==> OldCategory(prefix, e)) && (e.host in left.hosts <==> OldHost(prefix, e))
    {
      LeftoverMeans(prefix, e);
    }
    hide OldCategory, OldHost, LeftoverOf, Incidents;
  }

  lemma NearPrefix(prefix: seq<Row>, e: Row)
    requires Incidents(prefix) != []
    ensures Gap(LeftoverOf(Incidents(prefix)).last, e) < CLUSTER_GAP <==>
            exists last: nat :: LastIncidentAt(prefix, last) && !FarFrom(prefix[last], e)
  {
    var last := LastIncident(prefix);
    LastOfLeftover(prefix);
    hide LeftoverOf, Incidents;
    forall i: nat | LastIncidentAt(prefix, i) ensures i == last {}
  }

  lemma LastOfLeftover(prefix: seq<Row>)
    requires Incidents(prefix) != []
    ensures LeftoverOf(Incidents(prefix)).last == Incidents(prefix)[|Incidents(prefix)| - 1]
  {
  }

  lemma {:induction false} SkipTo(prefix: seq<Row>, clusters: seq<seq<Row>>, rows: seq<Row>, at: nat)
    returns (from: nat)
    requires Incidents(prefix) != [] && Tiles(clusters, rows, at)
    ensures at <= from && Tiles(SkipOverflow(clusters, LeftoverOf(Incidents(prefix))), rows, from)
    ensures forall lo: nat, hi: nat ::
              Burst(rows, lo, hi) && at <= lo < from ==> hi <= from && Overflowing(prefix, rows, lo, hi)
    ensures from == |rows| || exists hi: nat :: Burst(rows, from, hi) && !Overflowing(prefix, rows, from, hi)
  {
    hide IsOverflow, Overflowing, Burst, LeftoverOf;
    var left := LeftoverOf(Incidents(prefix));
    from := at;
    if clusters != [] {
      var b := at + |clusters[0]|;
      BurstInside(rows, at, b);
      OverflowMeans(prefix, rows, at, b);
      if IsOverflow(clusters[0], left) {
        from := SkipTo(prefix, clusters[1..], rows, b);
        forall lo: nat, hi: nat | Burst(rows, lo, hi) && at <= lo < from
          ensures hi <= from && Overflowing(prefix, rows, lo, hi)
        {
          if lo < b { BurstUnique(rows, at, b, lo, hi); }
        }
      }
    }
  }

  lemma BurstInside(rows: seq<Row>, lo: nat, hi: nat)
    requires Burst(rows, lo, hi)
    ensures lo < hi <= |rows|
  {
  }

  lemma {:induction false} LeastSevere(rows: seq<Row>, lo: nat, hi: nat) returns (k: nat)
    requires exists i: nat :: lo <= i < hi && SevereAt(rows, i)
    ensures lo <= k < hi && SevereAt(rows, k) && forall i: nat :: lo <= i < k ==> !SevereAt(rows, i)
    decreases hi - lo
  {
    k := lo;
    if !SevereAt(rows, lo) { k := LeastSevere(rows, lo + 1, hi); }
  }

  lemma {:induction false} LeastFresh(prefix: seq<Row>, rows: seq<Row>, lo: nat, hi: nat) returns (k: nat)
    requires exists i: nat :: lo <= i < hi && FreshAt(prefix, rows, i)
    ensures lo <= k < hi && FreshAt(prefix, rows, k) && forall i: nat :: lo <= i < k ==> !FreshAt(prefix, rows, i)
    decreases hi - lo
  {
    k := lo;
    if !FreshAt(prefix, rows, lo) { k := LeastFresh(prefix, rows, lo + 1, hi); }
  }

  lemma StormRowsAre(prefix: seq<Row>, rows: seq<Row>, lo: nat, hi: nat)
    requires Incidents(prefix) != [] && lo <= hi <= |rows|
    ensures IsStormish(rows[lo..hi]) <==> exists k: nat :: lo <= k < hi && SevereAt(rows, k)
    ensures NewHostStorm(rows[lo..hi], LeftoverOf(Incidents(prefix)).hosts) <==>
            exists k: nat :: lo <= k < hi && FreshAt(prefix, rows, k)
  {
    SevereRowsAre(rows, lo, hi);
    FreshRowsAre(prefix, rows, lo, hi);
    hide *;
  }

  lemma SevereRowsAre(rows: seq<Row>, lo: nat, hi: nat)
    requires lo <= hi <= |rows|
    ensures IsStormish(rows[lo..hi]) <==> exists k: nat :: lo <= k < hi && SevereAt(rows, k)
  {
    var c := rows[lo..hi];
    if e :| e in c && IsStormRow(e) {
      var j :| 0 <= j < |c| && c[j] == e;
      assert SevereAt(rows, lo + j);
    }
    if k: nat :| lo <= k < hi && SevereAt(rows, k) {
      assert c[k - lo] == rows[k] && IsStormRow(c[k - lo]);
    }
  }

  lemma FreshRowsAre(prefix: seq<Row>, rows: seq<Row>, lo: nat, hi: nat)
    requires Incidents(prefix) != [] && lo <= hi <= |rows|
    ensures NewHostStorm(rows[lo..hi], LeftoverOf(Incidents(prefix)).hosts) <==>
            exists k: nat :: lo <= k < hi && FreshAt(prefix, rows, k)
  {
    hide OldHost, LeftoverOf, Incidents;
    var c, left := rows[lo..hi], LeftoverOf(Incidents(prefix));
    if e :| e in c && e.host !in left.hosts && IsStormRow(e) {
      var j :| 0 <= j < |c| && c[j] == e;
      LeftoverMeans(prefix, e);
      assert FreshAt(prefix, rows, lo + j);
    }
    if k: nat :| lo <= k < hi && FreshAt(prefix, rows, k) {
      LeftoverMeans(prefix, rows[k]);
      assert c[k - lo] == rows[k] && IsStormRow(c[k - lo]);
    }
  }

  lemma {:induction false} NoSevere(prefix: seq<Row>, clusters: seq<seq<Row>>, rows: seq<Row>, at: nat)
    requires Incidents(prefix) != [] && Tiles(clusters, rows, at)
    requires Stormish(clusters) == []
    ensures forall k: nat :: at <= k ==> !SevereAt(rows, k)
  {
    hide Burst, IsStormish, LeftoverOf, Incidents;
    if clusters != [] {
      var b := at + |clusters[0]|;
      BurstInside(rows, at, b);
      StormRowsAre(prefix, rows, at, b);
      NoSevere(prefix, clusters[1..], rows, b);
    }
  }

  lemma {:induction false} FirstStormish(prefix: seq<Row>, clusters: seq<seq<Row>>, rows: seq<Row>, at: nat)
    returns (lo: nat, hi: nat, k: nat)
    requires Incidents(prefix) != [] && Tiles(clusters, rows, at)
    requires Stormish(clusters) != []
    ensures Burst(rows, lo, hi) && at <= lo <= k < hi <= |rows| && Stormish(clusters)[0] == rows[lo..hi]
    ensures SevereAt(rows, k) && forall f: nat :: at <= f < k ==> !SevereAt(rows, f)
  {
    hide Burst, IsStormish, LeftoverOf, Incidents, SevereAt;
    var b := at + |clusters[0]|;
    BurstInside(rows, at, b);
    StormRowsAre(prefix, rows, at, b);
    if IsStormish(clusters[0]) {
      lo, hi := at, b;
      k := LeastSevere(rows, lo, hi);
    } else {
      lo, hi, k := FirstStormish(prefix, clusters[1..], rows, b);
    }
  }

  lemma {:induction false} NoFresh(prefix: seq<Row>, clusters: seq<seq<Row>>, rows: seq<Row>, at: nat)
    requires Incidents(prefix) != [] && Tiles(clusters, rows, at)
    requires WithNewHost(Stormish(clusters), LeftoverOf(Incidents(prefix)).hosts) == []
    ensures forall k: nat :: at <= k ==> !FreshAt(prefix, rows, k)
  {
    hide Burst, IsStormish, NewHostStorm, LeftoverOf, Incidents, FreshAt;
    if clusters != [] {
      var b := at + |clusters[0]|;
      BurstInside(rows, at, b);
      StormRowsAre(prefix, rows, at, b);
      NewIsStormish(clusters[0], LeftoverOf(Incidents(prefix)).hosts);
      NoFresh(prefix, clusters[1..], rows, b);
    } else {
      NoneBeyond(prefix, rows);
    }
  }

  lemma NoneBeyond(prefix: seq<Row>, rows: seq<Row>)
    ensures forall k: nat :: |rows| <= k ==> !FreshAt(prefix, rows, k)
  {
  }

  lemma NewIsStormish(c: seq<Row>, hosts: set<nat>)
    ensures NewHostStorm(c, hosts) ==> IsStormish(c)
  {
  }

  lemma {:induction false} FirstFresh(prefix: seq<Row>, clusters: seq<seq<Row>>, rows: seq<Row>, at: nat)
    returns (lo: nat, hi: nat, k: nat)
    requires Incidents(prefix) != [] && Tiles(clusters, rows, at)
    requires WithNewHost(Stormish(clusters), LeftoverOf(Incidents(prefix)).hosts) != []
    ensures Burst(rows, lo, hi) && at <= lo <= k < hi <= |rows|
    ensures WithNewHost(Stormish(clusters), LeftoverOf(Incidents(prefix)).hosts)[0] == rows[lo..hi]
    ensures FreshAt(prefix, rows, k) && forall f: nat :: at <= f < k ==> !FreshAt(prefix, rows, f)
  {
    hide Burst, IsStormish, NewHostStorm, LeftoverOf, Incidents, FreshAt;
    var hosts := LeftoverOf(Incidents(prefix)).hosts;
    var b := at + |clusters[0]|;
    BurstInside(rows, at, b);
    StormRowsAre(prefix, rows, at, b);
    NewIsStormish(clusters[0], hosts);
    if NewHostStorm(clusters[0], hosts) {
      lo, hi := at, b;
      k := LeastFresh(prefix, rows, lo, hi);
    } else {
      lo, hi, k := FirstFresh(prefix, clusters[1..], rows, b);
    }
  }

  lemma {:induction false} StripStartsAt(prefix: seq<Row>, rows: seq<Row>, lo: nat, hi: nat, k: nat) returns (s: nat)
    requires Incidents(prefix) != [] && lo <= k < hi <= |rows|
    requires if FreshAt(prefix, rows, k) then true else forall f: nat :: lo <= f < hi ==> !FreshAt(prefix, rows, f)
    ensures s < hi && StripLeftover(rows[lo..hi], LeftoverOf(Incidents(prefix))) == rows[s..hi]
    ensures StartsAt(prefix, rows, lo, s, k)
    decreases k - lo
  {
    var left, c := LeftoverOf(Incidents(prefix)), rows[lo..hi];
    LeftoverMeans(prefix, rows[lo]);
    assert c[0] == rows[lo] && c[1..] == rows[lo + 1..hi];
    StormRowsAre(prefix, rows, lo + 1, hi);
    hide OldCategory, OldHost, NewHostStorm, LeftoverOf, Incidents;
    s := lo;
    if FreshAt(prefix, rows, k) && OldCategory(prefix, rows[lo]) && OldHost(prefix, rows[lo]) {
      assert lo < k;
      s := StripStartsAt(prefix, rows, lo + 1, hi, k);
    }
  }

  lemma {:induction false} LastOtherHeaded(prefix: seq<Row>, clusters: seq<seq<Row>>, rows: seq<Row>, at: nat)
    returns (lo: nat, hi: nat)
    requires Incidents(prefix) != [] && Tiles(clusters, rows, at)
    ensures var picked := OtherHeaded(clusters, LeftoverOf(Incidents(prefix)).cats);
            if picked == [] then hi == at
            else at <= lo < hi <= |rows| && Burst(rows, lo, hi) && picked[|picked| - 1] == rows[lo..hi]
                 && NewAt(prefix, rows, lo)
    ensures forall a: nat, b: nat :: Burst(rows, a, b) && hi <= a ==> OldAt(prefix, rows, a)
  {
    hide Burst, LeftoverOf, Incidents, OldCategory;
    lo, hi := at, at;
    if clusters != [] {
      var b := at + |clusters[0]|;
      BurstInside(rows, at, b);
      LeftoverMeans(prefix, rows[at]);
      var cats := LeftoverOf(Incidents(prefix)).cats;
      lo, hi := LastOtherHeaded(prefix, clusters[1..], rows, b);
      if OtherHeaded(clusters[1..], cats) == [] {
        if OtherHeaded(clusters, cats) == [] { hi := at; } else { lo, hi := at, b; }
      }
      forall x: nat, y: nat | Burst(rows, x, y) && hi <= x ensures OldAt(prefix, rows, x) {
        BurstInside(rows, x, y);
        if at <= x < b { BurstUnique(rows, at, b, x, y); }
      }
    } else {
      forall x: nat, y: nat | Burst(rows, x, y) ensures x < at { BurstInside(rows, x, y); }
    }
  }

  /** The outage that the rows themselves say is the later one. */
  ghost predicate IsLaterOutage(prefix: seq<Row>, missing: seq<Row>, storm: seq<Row>) {
    if missing == [] || forall e :: e in prefix ==> e.category == Config then storm == missing
    else if !NoLaterRouting(prefix, missing) then IsLaterRouting(prefix, missing, storm)
    else if exists e :: e in missing && !OldCategory(prefix, e) then IsLastOutage(prefix, missing, storm)
    else storm == if |missing| < 8 then missing else missing[|missing| - 8..]
  }

  lemma RoutingIsOld(prefix: seq<Row>)
    requires Incidents(prefix) != []
    ensures Routing in LeftoverOf(Incidents(prefix)).cats <==> exists e :: e in prefix && e.category == Routing
  {
    IncidentsAre(prefix);
  }

  lemma LaterRoutingMeans(prefix: seq<Row>, missing: seq<Row>)
    requires Incidents(prefix) != []
    ensures var storm := SameCategoryStorm(LeftoverOf(Incidents(prefix)), missing);
            if storm.None? then NoLaterRouting(prefix, missing)
            else !NoLaterRouting(prefix, missing) && IsLaterRouting(prefix, missing, storm.value)
  {
    var left := LeftoverOf(Incidents(prefix));
    RoutingIsOld(prefix);
    if Routing in left.cats {
      AllTiled(missing);
      var from := SkipTo(prefix, Clusters(missing), missing, 0);
      LaterRoutingFrom(prefix, missing, from);
    }
  }

  lemma LaterRoutingFrom(prefix: seq<Row>, missing: seq<Row>, from: nat)
    requires Incidents(prefix) != [] && Routing in LeftoverOf(Incidents(prefix)).cats
    requires OverflowEnds(prefix, missing, from)
    requires Tiles(SkipOverflow(Clusters(missing), LeftoverOf(Incidents(prefix))), missing, from)
    ensures var storm := SameCategoryStorm(LeftoverOf(Incidents(prefix)), missing);
            if storm.None? then NoLaterRouting(prefix, missing)
            else !NoLaterRouting(prefix, missing) && IsLaterRouting(prefix, missing, storm.value)
  {
    var left := LeftoverOf(Incidents(prefix));
    RoutingIsOld(prefix);
    var remaining := SkipOverflow(Clusters(missing), left);
    if |Stormish(remaining)| == 0 {
      hide *;
      NoSevere(prefix, remaining, missing, from);
      NoRoutingFrom(prefix, missing, from);
    } else {
      hide Clusters, SkipOverflow, Tiles, OverflowEnds, LeftoverOf, Incidents, StripLeftover;
      hide NoLaterRouting, IsLaterRouting;
      SomeRoutingFrom(prefix, missing, from, remaining);
      PickedIsRouting(prefix, missing, from, remaining);
    }
  }

  lemma NoRoutingFrom(prefix: seq<Row>, missing: seq<Row>, from: nat)
    requires OverflowEnds(prefix, missing, from) && forall k: nat :: from <= k ==> !SevereAt(missing, k)
    ensures NoLaterRouting(prefix, missing)
  {
  }

  lemma SomeRoutingFrom(prefix: seq<Row>, missing: seq<Row>, from: nat, remaining: seq<seq<Row>>)
    requires Incidents(prefix) != [] && exists e :: e in prefix && e.category == Routing
    requires OverflowEnds(prefix, missing, from) && Tiles(remaining, missing, from) && Stormish(remaining) != []
    ensures !NoLaterRouting(prefix, missing)
  {
    hide OverflowEnds, Tiles, Stormish, Incidents, SevereAt;
    var lo, hi, k := FirstStormish(prefix, remaining, missing, from);
    forall other: nat | OverflowEnds(prefix, missing, other) ensures from <= k && other == from {
      OverflowEndsOnce(prefix, missing, from, other);
    }
  }

  lemma PickedIsRouting(prefix: seq<Row>, missing: seq<Row>, from: nat, remaining: seq<seq<Row>>)
    requires Incidents(prefix) != []
    requires OverflowEnds(prefix, missing, from) && Tiles(remaining, missing, from) && Stormish(remaining) != []
    ensures IsLaterRouting(prefix, missing, PickStorm(LeftoverOf(Incidents(prefix)), remaining))
  {
    hide Tiles, OverflowEnds, Burst, LeftoverOf, Incidents, FreshAt, SevereAt, StripLeftover, Stormish, WithNewHost;
    hide StartsAt;
    var left := LeftoverOf(Incidents(prefix));
    var lo, hi, k := FirstStormish(prefix, remaining, missing, from);
    if |WithNewHost(Stormish(remaining), left.hosts)| > 0 {
      lo, hi, k := FirstFresh(prefix, remaining, missing, from);
    } else {
      NoFresh(prefix, remaining, missing, from);
    }
    var s := StripStartsAt(prefix, missing, lo, hi, k);
    assert IsLaterRoutingAt(prefix, missing, missing[s..hi], from, k, lo, hi, s);
  }

  lemma OverflowEndsBy(prefix: seq<Row>, rows: seq<Row>, a: nat, b: nat)
    requires OverflowEnds(prefix, rows, a) && OverflowEnds(prefix, rows, b)
    ensures b <= a
  {
    hide Overflowing;
  }

  lemma OverflowEndsOnce(prefix: seq<Row>, rows: seq<Row>, a: nat, b: nat)
    requires OverflowEnds(prefix, rows, a) && OverflowEnds(prefix, rows, b)
    ensures a == b
  {
    OverflowEndsBy(prefix, rows, a, b);
    OverflowEndsBy(prefix, rows, b, a);
  }

  lemma {:induction false} SkipCategoriesTo(prefix: seq<Row>, rows: seq<Row>) returns (first: nat)
    requires Incidents(prefix) != []
    ensures first <= |rows| && SkipCategories(rows, LeftoverOf(Incidents(prefix)).cats) == rows[first..]
    ensures forall i: nat :: i < first ==> OldAt(prefix, rows, i)
    ensures first < |rows| ==> NewAt(prefix, rows, first)
  {
    hide LeftoverOf, Incidents, OldCategory;
    first := 0;
    if rows != [] {
      LeftoverMeans(prefix, rows[0]);
      if OldCategory(prefix, rows[0]) {
        var k := SkipCategoriesTo(prefix, rows[1..]);
        first := k + 1;
        forall i: nat | i < first ensures OldAt(prefix, rows, i) {
          if i > 0 { assert OldAt(prefix, rows[1..], i - 1); }
        }
      }
    }
  }

  lemma LastOutageMeans(prefix: seq<Row>, missing: seq<Row>)
    requires Incidents(prefix) != [] && missing != []
    requires SameCategoryStorm(LeftoverOf(Incidents(prefix)), missing).None?
    ensures var storm := ChosenStorm(prefix, missing);
            if exists e :: e in missing && !OldCategory(prefix, e) then IsLastOutage(prefix, missing, storm)
            else storm == if |missing| < 8 then missing else missing[|missing| - 8..]
  {
    hide SameCategoryStorm, Clusters, LeftoverOf, Incidents, OldCategory, OtherHeaded, SkipCategories, IsLastOutage;
    var first := SkipCategoriesTo(prefix, missing);
    if first == |missing| {
      forall e | e in missing ensures OldCategory(prefix, e) {
        var i: nat :| i < |missing| && missing[i] == e;
        assert OldAt(prefix, missing, i);
      }
    } else {
      assert missing[first] in missing;
      LastHeadedMeans(prefix, missing, first);
    }
  }

  lemma LastHeadedMeans(prefix: seq<Row>, missing: seq<Row>, first: nat)
    requires Incidents(prefix) != [] && NewAt(prefix, missing, first)
    requires forall i: nat :: i < first ==> OldAt(prefix, missing, i)
    ensures var preferred := OtherHeaded(Clusters(missing[first..]), LeftoverOf(Incidents(prefix)).cats);
            preferred != [] && IsLastOutage(prefix, missing, preferred[|preferred| - 1])
  {
    hide Clusters, LeftoverOf, Incidents, OldCategory, OtherHeaded, Burst, Tiles;
    var later := missing[first..];
    AllTiled(later);
    var lo, hi := LastOtherHeaded(prefix, Clusters(later), later, 0);
    HeadIsPreferred(prefix, later);
    assert IsLastOutageAt(prefix, missing, later[lo..hi], first, lo, hi);
  }

  /** The fallback to any cluster is never taken: the first one is headed by a new category. */
  lemma HeadIsPreferred(prefix: seq<Row>, later: seq<Row>)
    requires Incidents(prefix) != [] && later != [] && !OldCategory(prefix, later[0])
    ensures OtherHeaded(Clusters(later), LeftoverOf(Incidents(prefix)).cats) != []
  {
    AllTiled(later);
    LeftoverMeans(prefix, later[0]);
  }

  /** The storm is the later outage, read off the rows. */
  lemma ChosenIsLaterOutage(prefix: seq<Row>, missing: seq<Row>)
    ensures IsLaterOutage(prefix, missing, ChosenStorm(prefix, missing))
  {
    IncidentsAre(prefix);
    assert Incidents(prefix) == [] <==> forall e :: e in prefix ==> e.category == Config by {
      if Incidents(prefix) != [] { assert Incidents(prefix)[0] in prefix; }
    }
    if Incidents(prefix) != [] && missing != [] {
      LaterRoutingMeans(prefix, missing);
      if SameCategoryStorm(LeftoverOf(Incidents(prefix)), missing).None? { LastOutageMeans(prefix, missing); }
    }
  }

  lemma LaterRoutingUnique(prefix: seq<Row>, rows: seq<Row>, a: seq<Row>, b: seq<Row>)
    requires IsLaterRouting(prefix, rows, a) && IsLaterRouting(prefix, rows, b)
    ensures a == b
  {
    hide OverflowEnds, Burst, FirstSevere, StartsAt;
    var f1: nat, k1: nat, l1: nat, h1: nat, s1: nat :| IsLaterRoutingAt(prefix, rows, a, f1, k1, l1, h1, s1);
    var f2: nat, k2: nat, l2: nat, h2: nat, s2: nat :| IsLaterRoutingAt(prefix, rows, b, f2, k2, l2, h2, s2);
    OverflowEndsOnce(prefix, rows, f1, f2);
    FirstSevereOnce(prefix, rows, f1, k1, k2);
    BurstInside(rows, l1, h1);
    BurstHolding(rows, l1, h1, l2, h2, k1);
    StartsOnce(prefix, rows, l1, s1, s2, k1);
  }

  lemma FirstSevereOnce(prefix: seq<Row>, rows: seq<Row>, from: nat, a: nat, b: nat)
    requires FirstSevere(prefix, rows, from, a) && FirstSevere(prefix, rows, from, b)
    ensures a == b
  {
    hide FreshAt, SevereAt;
  }

  lemma StartsOnce(prefix: seq<Row>, rows: seq<Row>, lo: nat, s: nat, t: nat, k: nat)
    requires k < |rows| && StartsAt(prefix, rows, lo, s, k) && StartsAt(prefix, rows, lo, t, k)
    ensures s == t
  {
    hide FreshAt, OldCategory, OldHost;
  }

  lemma BurstHolding(rows: seq<Row>, lo: nat, hi: nat, a: nat, b: nat, k: nat)
    requires Burst(rows, lo, hi) && Burst(rows, a, b) && lo <= k < hi && a <= k < b
    ensures a == lo && b == hi
  {
    if lo <= a { BurstUnique(rows, lo, hi, a, b); } else { BurstUnique(rows, a, b, lo, hi); }
  }

  lemma LastOutageUnique(prefix: seq<Row>, rows: seq<Row>, a: seq<Row>, b: seq<Row>)
    requires IsLastOutage(prefix, rows, a) && IsLastOutage(prefix, rows, b)
    ensures a == b
  {
    hide Burst, OldCategory;
    var f: nat, l1: nat, h1: nat :| IsLastOutageAt(prefix, rows, a, f, l1, h1);
    var g: nat, l2: nat, h2: nat :| IsLastOutageAt(prefix, rows, b, g, l2, h2);
    assert f < g ==> OldAt(prefix, rows, f);
    assert g < f ==> OldAt(prefix, rows, g);
    var later := rows[f..];
    BurstInside(later, l1, h1);
    BurstInside(later, l2, h2);
    if l2 < h1 && l1 < h2 {
      BurstHolding(later, l1, h1, l2, h2, if l1 < l2 then l2 else l1);
    }
  }

  /** And it is the only one: a storm is the chosen one if and only if it is the later outage. */
  lemma LaterOutageIsChosen(prefix: seq<Row>, missing: seq<Row>, storm: seq<Row>)
    ensures IsLaterOutage(prefix, missing, storm) <==> storm == ChosenStorm(prefix, missing)
  {
    ChosenIsLaterOutage(prefix, missing);
    var chosen := ChosenStorm(prefix, missing);
    hide ChosenStorm, IsLaterRouting, IsLastOutage, NoLaterRouting, OldCategory;
    if IsLaterOutage(prefix, missing, storm) {
      if IsLaterRouting(prefix, missing, storm) && IsLaterRouting(prefix, missing, chosen) {
        LaterRoutingUnique(prefix, missing, storm, chosen);
      }
      if IsLastOutage(prefix, missing, storm) && IsLastOutage(prefix, missing, chosen) {
        LastOutageUnique(prefix, missing, storm, chosen);
      }
    }
  }
}
