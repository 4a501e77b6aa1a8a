/** The capped causal timeline (causal.py): commits pinned into the display cap, a floor for
    the later storm, and the earliest commit protected through every eviction. */
module Timeline {
  import opened Options
  import opened LaterStorm
  import opened Ordering

  const CONFIG_PIN: nat := 4
  const DATETIME_MAX: int := 315_537_897_599_999_999

  /** Unknown stamps sort last. */
  function TimeOf(e: Row): int {
    if e.time.Some? then e.time.value else DATETIME_MAX
  }

  predicate TimeLe(a: Row, b: Row) {
    TimeOf(a) < TimeOf(b) || (TimeOf(a) == TimeOf(b) && a.host <= b.host)
  }

  const BY_TIME: (Row, Row) -> bool := (a: Row, b: Row) => TimeLe(a, b)

  lemma TimeOrderTotal()
    ensures Total(BY_TIME)
  {
  }

  // ------------------------------------------------------- filters and evictions

  type Test = Row -> bool

  const SHOWN: Test :=
    (e: Row) => e.severity.Critical? || e.severity.High? || e.severity.Medium? || e.category == Config
  const COMMIT: Test := (e: Row) => e.category == Config
  const INCIDENT: Test := (e: Row) => IsIncident(e)

  function CommitBut(protect: Option<Row>): Test {
    (e: Row) => e.category == Config && protect != Some(e)
  }

  function IncidentNotIn(rows: seq<Row>): Test {
    (e: Row) => IsIncident(e) && e !in rows
  }

  function CommitNotIn(shown: seq<Row>, prefix: seq<Row>): Test {
    (e: Row) => e.category == Config && e !in shown && e !in prefix
  }

  function Where(rows: seq<Row>, p: Test): seq<Row> {
    if |rows| == 0 then []
    else if p(rows[0]) then [rows[0]] + Where(rows[1..], p) else Where(rows[1..], p)
  }

  function CountOf(rows: seq<Row>, p: Test): nat {
    if |rows| == 0 then 0 else (if p(rows[0]) then 1 else 0) + CountOf(rows[1..], p)
  }

  /** rows without the first n that satisfy p */
  function DropFirst(rows: seq<Row>, p: Test, n: nat): seq<Row> {
    if |rows| == 0 || n == 0 then rows
    else if p(rows[0]) then DropFirst(rows[1..], p, n - 1)
    else [rows[0]] + DropFirst(rows[1..], p, n)
  }

  function Reversed(rows: seq<Row>): seq<Row> {
    if |rows| == 0 then [] else Reversed(rows[1..]) + [rows[0]]
  }

  /** rows without the last n that satisfy p */
  function DropLast(rows: seq<Row>, p: Test, n: nat): seq<Row> {
    Reversed(DropFirst(Reversed(rows), p, n))
  }

  lemma {:induction false} WhereIs(rows: seq<Row>, p: Test)
    ensures forall e :: e in Where(rows, p) <==> e in rows && p(e)
    ensures Distinct(rows) ==> Distinct(Where(rows, p))
  {
    if |rows| > 0 {
      WhereIs(rows[1..], p);
      if Distinct(rows) {
        assert rows[0] !in rows[1..];
        var rest := Where(rows[1..], p);
        assert forall i :: 0 <= i < |rest| ==> rest[i] in rest;
      }
    }
  }

  lemma {:induction false} DropFirstSize(rows: seq<Row>, p: Test, n: nat)
    ensures |DropFirst(rows, p, n)| == |rows| - Min(n, CountOf(rows, p))
  {
    if |rows| > 0 && n > 0 {
      DropFirstSize(rows[1..], p, if p(rows[0]) then n - 1 else n);
    }
  }

  lemma {:induction false} DropFirstKeeps(rows: seq<Row>, p: Test, n: nat)
    ensures forall e :: e in DropFirst(rows, p, n) ==> e in rows
    ensures forall e :: e in rows && !p(e) ==> e in DropFirst(rows, p, n)
    ensures Distinct(rows) ==> Distinct(DropFirst(rows, p, n))
  {
    if |rows| > 0 && n > 0 {
      DropFirstKeeps(rows[1..], p, if p(rows[0]) then n - 1 else n);
      if Distinct(rows) {
        assert rows[0] !in rows[1..];
        var rest := DropFirst(rows[1..], p, n);
        DropFirstKeeps(rows[1..], p, n);
        assert forall i :: 0 <= i < |rest| ==> rest[i] in rest;
      }
    }
  }

  lemma {:induction false} DropFirstCount(rows: seq<Row>, p: Test, n: nat, q: Test)
    requires forall e :: q(e) ==> !p(e)
    ensures CountOf(DropFirst(rows, p, n), q) == CountOf(rows, q)
  {
    if |rows| > 0 && n > 0 {
      DropFirstCount(rows[1..], p, if p(rows[0]) then n - 1 else n, q);
      if !p(rows[0]) {
        assert DropFirst(rows, p, n)[1..] == DropFirst(rows[1..], p, n);
      }
    }
  }

  lemma {:induction false} ReversedIs(rows: seq<Row>)
    ensures |Reversed(rows)| == |rows|
    ensures forall e :: e in Reversed(rows) <==> e in rows
    ensures forall i :: 0 <= i < |rows| ==> Reversed(rows)[i] == rows[|rows| - 1 - i]
  {
    if |rows| > 0 { ReversedIs(rows[1..]); }
  }

  lemma {:induction false} CountAppend(rows: seq<Row>, e: Row, p: Test)
    ensures CountOf(rows + [e], p) == CountOf(rows, p) + if p(e) then 1 else 0
  {
    if |rows| == 0 {
      assert (rows + [e])[1..] == [];
    } else {
      assert (rows + [e])[1..] == rows[1..] + [e];
      CountAppend(rows[1..], e, p);
    }
  }

  lemma {:induction false} ReversedCount(rows: seq<Row>, p: Test)
    ensures CountOf(Reversed(rows), p) == CountOf(rows, p)
  {
    if |rows| > 0 {
      ReversedCount(rows[1..], p);
      CountAppend(Reversed(rows[1..]), rows[0], p);
    }
  }

  lemma DropLastIs(rows: seq<Row>, p: Test, n: nat)
    ensures |DropLast(rows, p, n)| == |rows| - Min(n, CountOf(rows, p))
    ensures forall e :: e in DropLast(rows, p, n) ==> e in rows
    ensures forall e :: e in rows && !p(e) ==> e in DropLast(rows, p, n)
    ensures Distinct(rows) ==> Distinct(DropLast(rows, p, n))
  {
    var back := Reversed(rows);
    ReversedIs(rows);
    ReversedCount(rows, p);
    DropFirstSize(back, p, n);
    DropFirstKeeps(back, p, n);
    ReversedIs(DropFirst(back, p, n));
  }

  /** The eviction loops: drop the first n rows of a kind, keep the rest. */
  method EvictOldest(rows: seq<Row>, p: Test, n: nat) returns (kept: seq<Row>, evicted: nat)
    ensures kept == DropFirst(rows, p, n)
    ensures evicted == |rows| - |kept| && evicted == Min(n, CountOf(rows, p))
  {
    hide DropFirst, CountOf;
    kept, evicted := [], 0;
    for i := 0 to |rows|
      invariant evicted <= n && evicted + |kept| == i
      invariant kept + DropFirst(rows[i..], p, n - evicted) == DropFirst(rows, p, n)
    {
      var e := rows[i];
      assert rows[i..][1..] == rows[i + 1..];
      DropNext(rows[i..], p, n - evicted);
      if evicted < n && p(e) {
        evicted := evicted + 1;
        continue;
      }
      kept := kept + [e];
    }
    DropFirstSize([], p, n - evicted);
    DropFirstSize(rows, p, n);
  }

  lemma DropNext(rows: seq<Row>, p: Test, n: nat)
    requires rows != []
    ensures DropFirst(rows, p, n) == if n > 0 && p(rows[0]) then DropFirst(rows[1..], p, n - 1)
                                     else [rows[0]] + DropFirst(rows[1..], p, n)
  {
    assert rows == [rows[0]] + rows[1..];
  }

  /** The same from the newest end: a walk over the reversed rows. */
  method EvictNewest(rows: seq<Row>, p: Test, n: nat) returns (kept: seq<Row>, evicted: nat)
    ensures kept == DropLast(rows, p, n)
    ensures evicted == |rows| - |kept| && evicted == Min(n, CountOf(rows, p))
  {
    kept, evicted := EvictOldest(Reversed(rows), p, n);
    kept := Reversed(kept);
    DropLastIs(rows, p, n);
    ReversedIs(rows);
    ReversedCount(rows, p);
    ReversedIs(DropFirst(Reversed(rows), p, n));
  }

  // ----------------------------------------------------------- the selection

  function Earliest(rows: seq<Row>, chosen: Option<Row>): Option<Row>
    decreases |rows|
  {
    if |rows| == 0 then chosen
    else if rows[0].category == Config && (chosen.None? || !TimeLe(chosen.value, rows[0]))
    then Earliest(rows[1..], Some(rows[0]))
    else Earliest(rows[1..], chosen)
  }

  /** `_earliest_config_id` */
  method EarliestConfig(rows: seq<Row>) returns (chosen: Option<Row>)
    ensures chosen == Earliest(rows, None)
  {
    chosen := None;
    for i := 0 to |rows|
      invariant Earliest(rows[i..], chosen) == Earliest(rows, None)
    {
      assert rows[i..][1..] == rows[i + 1..];
      if rows[i].category == Config && (chosen.None? || !TimeLe(chosen.value, rows[i])) {
        chosen := Some(rows[i]);
      }
    }
  }

  /** A prefix after the first stage, and the storm rows pulled into it. */
  datatype Stage = Stage(prefix: seq<Row>, pulled: seq<Row>)

  /** How many storm rows the first stage makes room for. */
  function PullSize(prefix: seq<Row>, storm: seq<Row>): nat {
    var configs := CountOf(prefix, COMMIT);
    Min(Min(INCIDENT_FLOOR, |storm|), (if configs > 0 then configs - 1 else 0) + CountOf(prefix, INCIDENT))
  }

  /** What is left of the prefix once room for `take` storm rows is made: oldest commits first,
      then oldest leftover incidents. */
  function MakeRoom(prefix: seq<Row>, protect: Option<Row>, take: nat): seq<Row> {
    var configs := CountOf(prefix, COMMIT);
    var kept := DropFirst(prefix, CommitBut(protect), Min(take, if configs > 0 then configs - 1 else 0));
    var evicted := if |kept| <= |prefix| then |prefix| - |kept| else 0;
    if evicted < take then DropFirst(kept, INCIDENT, take - evicted) else kept
  }

  function PullStorm(prefix: seq<Row>, storm: seq<Row>, protect: Option<Row>): Stage {
    var kept := MakeRoom(prefix, protect, PullSize(prefix, storm));
    var pulled := storm[..Min(|prefix| - Min(|prefix|, |kept|), |storm|)];
    Stage(StableSort(BY_TIME, kept + pulled), pulled)
  }

  /** What the late-commit stage keeps of the prefix after a storm was pulled. */
  function StormKept(stage: Stage, protect: Option<Row>, take: nat): seq<Row> {
    var commitsKept := DropFirst(stage.prefix, CommitBut(protect), take);
    var evicted := |stage.prefix| - Min(|stage.prefix|, |commitsKept|);
    if evicted < take then DropFirst(commitsKept, IncidentNotIn(stage.pulled), take - evicted) else commitsKept
  }

  /** Late commits swapped in after a storm was pulled. */
  function PinAfterStorm(stage: Stage, pin: seq<Row>, protect: Option<Row>): seq<Row> {
    var configs := CountOf(stage.prefix, COMMIT);
    var take := Min(|pin|, if configs > 0 then configs - 1 else |pin|);
    if take == 0 then stage.prefix
    else
      var kept := StormKept(stage, protect, take);
      StableSort(BY_TIME, kept + pin[..Min(|stage.prefix| - Min(|stage.prefix|, |kept|), |pin|)])
  }

  /** Late commits swapped in for the newest incidents when there was no storm to pull. */
  function PinPlain(prefix: seq<Row>, pin: seq<Row>): seq<Row> {
    var incidents := CountOf(prefix, INCIDENT);
    var most := Min(|pin|, if incidents > 0 then incidents - 1 else 0);
    if most == 0 then prefix
    else
      var kept := DropLast(prefix, INCIDENT, most);
      StableSort(BY_TIME, kept + pin[..Min(|prefix| - Min(|prefix|, |kept|), |pin|)])
  }

  /** The storm that overflowed the cap, as the first stage sees it. */
  function OverflowStorm(rows: seq<Row>, limit: nat): seq<Row>
    requires limit <= |rows|
  {
    var missing := Where(rows, IncidentNotIn(rows[..limit]));
    if missing == [] then [] else ChosenStorm(rows[..limit], missing)
  }

  function FirstStage(rows: seq<Row>, limit: nat): Stage
    requires limit <= |rows|
  {
    var storm := OverflowStorm(rows, limit);
    if PullSize(rows[..limit], storm) == 0 then Stage(rows[..limit], [])
    else PullStorm(rows[..limit], storm, Earliest(rows, None))
  }

  /** The commits to pin: late ones that never fitted the chronological window. */
  function Pins(rows: seq<Row>, limit: nat, shown: seq<Row>): seq<Row>
    requires limit <= |rows|
  {
    var missing := Where(rows, CommitNotIn(shown, rows[..limit]));
    missing[..Min(CONFIG_PIN, |missing|)]
  }

  /** `_select_timeline_rows` on rows already filtered and sorted */
  function Select(rows: seq<Row>, limit: nat): seq<Row> {
    if |rows| <= limit then rows
    else
      var stage := FirstStage(rows, limit);
      var pin := Pins(rows, limit, stage.prefix);
      if pin == [] then stage.prefix
      else if PullSize(rows[..limit], OverflowStorm(rows, limit)) != 0
      then PinAfterStorm(stage, pin, Earliest(rows, None))
      else PinPlain(stage.prefix, pin)
  }

  function Rows(events: seq<Row>): seq<Row> {
    StableSort(BY_TIME, Where(events, SHOWN))
  }

  // ------------------------------------------------- size, order, no duplicates

  /** A display: distinct rows of the input, in chronological order. */
  ghost predicate IsDisplay(shown: seq<Row>, rows: seq<Row>) {
    Distinct(shown) && SortedBy(BY_TIME, shown) && forall e :: e in shown ==> e in rows
  }

  /** Swapping evicted rows for rows not yet shown keeps a display. */
  lemma SwapKeepsDisplay(kept: seq<Row>, more: seq<Row>, rows: seq<Row>)
    requires Distinct(kept) && Distinct(more) && (forall e :: e in more ==> e !in kept)
    requires (forall e :: e in kept ==> e in rows) && (forall e :: e in more ==> e in rows)
    ensures var shown := StableSort(BY_TIME, kept + more);
            IsDisplay(shown, rows) && |shown| == |kept| + |more| && forall e :: e in shown <==> e in kept || e in more
  {
    var all := kept + more;
    TimeOrderTotal();
    StableSortSorts(BY_TIME, all);
    SameElements(StableSort(BY_TIME, all), all);
    forall i, j | 0 <= i < j < |all| ensures all[i] != all[j] {
      if i < |kept| <= j { assert all[j] in more && all[i] in kept; }
    }
    DistinctByMultiset(all, StableSort(BY_TIME, all));
  }

  lemma RowsDisplay(events: seq<Row>)
    requires Distinct(events)
    ensures IsDisplay(Rows(events), events)
    ensures forall e :: e in Rows(events) <==> e in events && SHOWN(e)
  {
    WhereIs(events, SHOWN);
    SwapKeepsDisplay(Where(events, SHOWN), [], events);
    assert Where(events, SHOWN) + [] == Where(events, SHOWN);
  }

  lemma PrefixDisplay(rows: seq<Row>, limit: nat)
    requires IsDisplay(rows, rows) && limit <= |rows|
    ensures IsDisplay(rows[..limit], rows)
  {
  }

  lemma PartDisplay(part: seq<Row>, whole: seq<Row>, n: nat)
    requires Distinct(whole) && n <= |whole| && part == whole[..n]
    ensures Distinct(part) && forall e :: e in part ==> e in whole
  {
  }

  lemma {:induction false} CommitsAndIncidents(rows: seq<Row>)
    ensures CountOf(rows, COMMIT) + CountOf(rows, INCIDENT) == |rows|
  {
    if |rows| > 0 { CommitsAndIncidents(rows[1..]); }
  }

  lemma MakeRoomKeeps(prefix: seq<Row>, protect: Option<Row>, take: nat)
    ensures var kept := MakeRoom(prefix, protect, take);
            |kept| <= |prefix| && |prefix| - |kept| <= take
            && (forall e :: e in kept ==> e in prefix)
            && (Distinct(prefix) ==> Distinct(kept))
            && (protect.Some? && protect.value.category == Config && protect.value in prefix ==> protect.value in kept)
  {
    hide DropFirst, CountOf, Distinct;
    var configs := CountOf(prefix, COMMIT);
    var n := Min(take, if configs > 0 then configs - 1 else 0);
    var kept := DropFirst(prefix, CommitBut(protect), n);
    DropFirstSize(prefix, CommitBut(protect), n);
    DropFirstKeeps(prefix, CommitBut(protect), n);
    var evicted := |prefix| - |kept|;
    DropFirstSize(kept, INCIDENT, take - evicted);
    DropFirstKeeps(kept, INCIDENT, take - evicted);
  }

  lemma SliceOf(storm: seq<Row>, missing: seq<Row>)
    requires IsSlice(storm, missing) && Distinct(missing)
    ensures Distinct(storm) && forall e :: e in storm ==> e in missing
  {
    var lo: nat :| SliceAt(storm, missing, lo);
    forall e | e in storm ensures e in missing {
      var i :| 0 <= i < |storm| && storm[i] == e;
      assert missing[lo + i] == e;
    }
  }

  lemma OverflowStormIs(rows: seq<Row>, limit: nat)
    requires Distinct(rows) && limit <= |rows|
    ensures var missing, storm := Where(rows, IncidentNotIn(rows[..limit])), OverflowStorm(rows, limit);
            Distinct(storm) && (forall e :: e in storm ==> e in rows && IsIncident(e) && e !in rows[..limit])
            && (missing != [] ==> storm != [] && IsSlice(storm, missing))
  {
    var missing := Where(rows, IncidentNotIn(rows[..limit]));
    WhereIs(rows, IncidentNotIn(rows[..limit]));
    if missing != [] {
      ChosenStormIsSlice(rows[..limit], missing);
      SliceOf(OverflowStorm(rows, limit), missing);
    }
  }

  lemma FirstStageDisplay(rows: seq<Row>, limit: nat)
    requires IsDisplay(rows, rows) && limit <= |rows|
    ensures var stage := FirstStage(rows, limit);
            IsDisplay(stage.prefix, rows) && |stage.prefix| == limit
            && (forall e :: e in stage.pulled ==> e in stage.prefix && IsIncident(e))
  {
    hide MakeRoom, StableSort, OverflowStorm, CountOf, Earliest, Distinct, SortedBy;
    var prefix, storm, protect := rows[..limit], OverflowStorm(rows, limit), Earliest(rows, None);
    PrefixDisplay(rows, limit);
    OverflowStormIs(rows, limit);
    var take := PullSize(prefix, storm);
    if take != 0 {
      MakeRoomKeeps(prefix, protect, take);
      var kept := MakeRoom(prefix, protect, take);
      var pulled := storm[..|prefix| - |kept|];
      PartDisplay(pulled, storm, |prefix| - |kept|);
      SwapKeepsDisplay(kept, pulled, rows);
    }
  }

  lemma PinsAre(rows: seq<Row>, limit: nat, shown: seq<Row>)
    requires Distinct(rows) && limit <= |rows|
    ensures var pin := Pins(rows, limit, shown);
            Distinct(pin)
            && forall e :: e in pin ==> e in rows && e.category == Config && e !in shown && e !in rows[..limit]
  {
    var missing := Where(rows, CommitNotIn(shown, rows[..limit]));
    WhereIs(rows, CommitNotIn(shown, rows[..limit]));
    PartDisplay(Pins(rows, limit, shown), missing, Min(CONFIG_PIN, |missing|));
  }

  /** Evicting for pins and adding as many: the display keeps its size. */
  lemma PinSwap(prefix: seq<Row>, kept: seq<Row>, pin: seq<Row>, rows: seq<Row>)
    requires IsDisplay(prefix, rows) && Distinct(kept) && (forall e :: e in kept ==> e in prefix)
    requires |kept| <= |prefix| && |prefix| - |kept| <= |pin|
    requires Distinct(pin) && forall e :: e in pin ==> e in rows && e !in prefix
    ensures var n := |prefix| - |kept|; var shown := StableSort(BY_TIME, kept + pin[..n]);
            IsDisplay(shown, rows) && |shown| == |prefix| && forall e :: e in shown <==> e in kept || e in pin[..n]
  {
    PartDisplay(pin[..|prefix| - |kept|], pin, |prefix| - |kept|);
    SwapKeepsDisplay(kept, pin[..|prefix| - |kept|], rows);
  }

  lemma StormKeptKeeps(stage: Stage, protect: Option<Row>, take: nat)
    requires forall e :: e in stage.pulled ==> e in stage.prefix && IsIncident(e)
    ensures var kept := StormKept(stage, protect, take);
            |kept| <= |stage.prefix| && |stage.prefix| - |kept| <= take
            && (forall e :: e in kept ==> e in stage.prefix)
            && (Distinct(stage.prefix) ==> Distinct(kept))
            && (forall e :: e in stage.pulled ==> e in kept)
            && (protect.Some? && protect.value.category == Config && protect.value in stage.prefix ==>
                  protect.value in kept)
  {
    hide DropFirst, CountOf, Distinct;
    var p, commitsKept := CommitBut(protect), DropFirst(stage.prefix, CommitBut(protect), take);
    DropFirstSize(stage.prefix, p, take);
    DropFirstKeeps(stage.prefix, p, take);
    var evicted := |stage.prefix| - |commitsKept|;
    DropFirstSize(commitsKept, IncidentNotIn(stage.pulled), take - evicted);
    DropFirstKeeps(commitsKept, IncidentNotIn(stage.pulled), take - evicted);
  }

  /** The pin stage after a storm: same size, and neither the storm nor the protected commit goes. */
  lemma PinAfterStormKeeps(stage: Stage, pin: seq<Row>, protect: Option<Row>, rows: seq<Row>)
    requires IsDisplay(stage.prefix, rows) && Distinct(pin)
    requires forall e :: e in stage.pulled ==> e in stage.prefix && IsIncident(e)
    requires forall e :: e in pin ==> e in rows && e !in stage.prefix
    ensures var shown := PinAfterStorm(stage, pin, protect);
            IsDisplay(shown, rows) && |shown| == |stage.prefix|
            && (forall e :: e in stage.pulled ==> e in shown)
            && (protect.Some? && protect.value.category == Config && protect.value in stage.prefix ==>
                  protect.value in shown)
  {
    var configs := CountOf(stage.prefix, COMMIT);
    var take := Min(|pin|, if configs > 0 then configs - 1 else |pin|);
    if take != 0 {
      StormKeptKeeps(stage, protect, take);
      PinSwap(stage.prefix, StormKept(stage, protect, take), pin, rows);
    }
  }

  lemma PinPlainKeeps(prefix: seq<Row>, pin: seq<Row>, rows: seq<Row>)
    requires IsDisplay(prefix, rows) && Distinct(pin)
    requires forall e :: e in pin ==> e in rows && e !in prefix
    ensures var shown := PinPlain(prefix, pin);
            IsDisplay(shown, rows) && |shown| == |prefix|
            && forall e :: e in prefix && e.category == Config ==> e in shown
  {
    var incidents := CountOf(prefix, INCIDENT);
    var most := Min(|pin|, if incidents > 0 then incidents - 1 else 0);
    if most != 0 {
      DropLastIs(prefix, INCIDENT, most);
      PinSwap(prefix, DropLast(prefix, INCIDENT, most), pin, rows);
    }
  }

  /** Through every branch: exactly min(limit, rows) distinct rows in chronological order. */
  lemma SelectDisplay(rows: seq<Row>, limit: nat)
    requires IsDisplay(rows, rows)
    ensures IsDisplay(Select(rows, limit), rows) && |Select(rows, limit)| == Min(limit, |rows|)
  {
    if |rows| > limit {
      FirstStageDisplay(rows, limit);
      var stage := FirstStage(rows, limit);
      PinsAre(rows, limit, stage.prefix);
      PinAfterStormKeeps(stage, Pins(rows, limit, stage.prefix), Earliest(rows, None), rows);
      PinPlainKeeps(stage.prefix, Pins(rows, limit, stage.prefix), rows);
    }
  }

  // ------------------------------------------------------- the earliest commit

  lemma {:induction false} EarliestIs(rows: seq<Row>, chosen: Option<Row>)
    requires chosen.Some? ==> chosen.value.category == Config && forall e :: e in rows ==> TimeLe(chosen.value, e)
    requires SortedBy(BY_TIME, rows)
    ensures var r := Earliest(rows, chosen);
            chosen.Some? ==> r == chosen
    ensures var r := Earliest(rows, chosen);
            chosen.None? ==> r == FirstCommit(rows)
  {
    if |rows| > 0 {
      assert rows[0] in rows && forall e :: e in rows[1..] ==> e in rows;
      if rows[0].category == Config && chosen.None? {
        forall e | e in rows[1..] ensures TimeLe(rows[0], e) {
          var i :| 0 <= i < |rows[1..]| && rows[1..][i] == e;
          assert BY_TIME(rows[0], rows[i + 1]);
        }
        EarliestIs(rows[1..], Some(rows[0]));
      } else {
        EarliestIs(rows[1..], chosen);
      }
    }
  }

  function FirstCommit(rows: seq<Row>): Option<Row> {
    if |rows| == 0 then None
    else if rows[0].category == Config then Some(rows[0]) else FirstCommit(rows[1..])
  }

  lemma {:induction false} FirstCommitIs(rows: seq<Row>, n: nat)
    requires n <= |rows|
    ensures FirstCommit(rows).None? <==> forall e :: e in rows ==> IsIncident(e)
    ensures FirstCommit(rows).Some? ==> FirstCommit(rows).value in rows && FirstCommit(rows).value.category == Config
    ensures CountOf(rows[..n], COMMIT) > 0 ==> FirstCommit(rows).Some? && FirstCommit(rows).value in rows[..n]
  {
    if |rows| > 0 {
      assert rows[0] in rows;
      if n > 0 {
        assert rows[..n][1..] == rows[1..][..n - 1];
        FirstCommitIs(rows[1..], n - 1);
        if rows[0].category == Config {
          assert rows[..n][0] in rows[..n];
        } else if CountOf(rows[..n], COMMIT) > 0 {
          var c := FirstCommit(rows[1..]).value;
          var i :| 0 <= i < n - 1 && rows[1..][i] == c;
          assert rows[..n][i + 1] == c;
        }
      } else {
        FirstCommitIs(rows[1..], 0);
      }
    }
  }

  /** The commit no eviction may touch is in the window as soon as any commit is. */
  lemma ProtectedInWindow(rows: seq<Row>, limit: nat)
    requires SortedBy(BY_TIME, rows) && limit <= |rows|
    ensures Earliest(rows, None) == FirstCommit(rows)
    ensures Earliest(rows, None).None? <==> forall e :: e in rows ==> IsIncident(e)
    ensures Earliest(rows, None).Some? ==>
              Earliest(rows, None).value in rows && Earliest(rows, None).value.category == Config
    ensures CountOf(rows[..limit], COMMIT) > 0 ==>
              Earliest(rows, None).Some? && Earliest(rows, None).value in rows[..limit]
  {
    EarliestIs(rows, None);
    FirstCommitIs(rows, limit);
  }

  lemma {:induction false} WhereFirstCommit(rows: seq<Row>, p: Test)
    requires FirstCommit(rows).Some? && p(FirstCommit(rows).value)
    requires forall e :: p(e) ==> e.category == Config
    ensures Where(rows, p) != [] && Where(rows, p)[0] == FirstCommit(rows).value
  {
    if rows[0].category != Config { WhereFirstCommit(rows[1..], p); }
  }

  /** If no commit is shown yet, the first pin is the earliest commit. */
  lemma FirstPin(rows: seq<Row>, limit: nat, shown: seq<Row>)
    requires limit <= |rows| && FirstCommit(rows).Some?
    requires FirstCommit(rows).value !in shown && FirstCommit(rows).value !in rows[..limit]
    ensures Pins(rows, limit, shown) != [] && Pins(rows, limit, shown)[0] == FirstCommit(rows).value
  {
    FirstCommitIs(rows, 0);
    WhereFirstCommit(rows, CommitNotIn(shown, rows[..limit]));
  }

  /** With the cap above the floor the first stage always pulls the whole floor. */
  lemma PullSizeIs(rows: seq<Row>, limit: nat)
    requires Distinct(rows) && INCIDENT_FLOOR < limit <= |rows|
    ensures PullSize(rows[..limit], OverflowStorm(rows, limit)) == Min(INCIDENT_FLOOR, |OverflowStorm(rows, limit)|)
  {
    CommitsAndIncidents(rows[..limit]);
  }

  lemma {:induction false} DropAllCommitsBut(rows: seq<Row>, c: Row)
    requires Distinct(rows) && c in rows && c.category == Config
    ensures CountOf(rows, CommitBut(Some(c))) == CountOf(rows, COMMIT) - 1
  {
    if rows[0] == c {
      assert c !in rows[1..];
      SameCommits(rows[1..], c);
    } else {
      DropAllCommitsBut(rows[1..], c);
    }
  }

  lemma {:induction false} SameCommits(rows: seq<Row>, c: Row)
    requires c !in rows
    ensures CountOf(rows, CommitBut(Some(c))) == CountOf(rows, COMMIT)
  {
    if |rows| > 0 {
      assert rows[0] in rows;
      SameCommits(rows[1..], c);
    }
  }

  /** The eviction makes exactly the room it was asked for. */
  lemma MakeRoomExact(prefix: seq<Row>, protect: Option<Row>, take: nat)
    requires Distinct(prefix)
    requires CountOf(prefix, COMMIT) > 0 ==>
               protect.Some? && protect.value in prefix && protect.value.category == Config
    requires var commits := CountOf(prefix, COMMIT);
             take <= (if commits > 0 then commits - 1 else 0) + CountOf(prefix, INCIDENT)
    ensures |MakeRoom(prefix, protect, take)| == |prefix| - take
  {
    hide DropFirst, CountOf, Distinct;
    var configs := CountOf(prefix, COMMIT);
    var n := Min(take, if configs > 0 then configs - 1 else 0);
    if configs > 0 { DropAllCommitsBut(prefix, protect.value); }
    DropFirstSize(prefix, CommitBut(protect), n);
    DropFirstCount(prefix, CommitBut(protect), n, INCIDENT);
    var kept := DropFirst(prefix, CommitBut(protect), n);
    DropFirstSize(kept, INCIDENT, take - n);
  }

  /** In the first stage exactly the head of the storm enters, and the earliest commit stays. */
  lemma FirstStageExact(rows: seq<Row>, limit: nat)
    requires IsDisplay(rows, rows) && limit <= |rows|
    ensures var stage, storm := FirstStage(rows, limit), OverflowStorm(rows, limit);
            stage.pulled == storm[..PullSize(rows[..limit], storm)]
            && (CountOf(rows[..limit], COMMIT) > 0 ==>
                  Earliest(rows, None).Some? && Earliest(rows, None).value in stage.prefix)
            && (forall e :: e in stage.prefix ==> e in rows[..limit] || e in stage.pulled)
  {
    var prefix, storm, protect := rows[..limit], OverflowStorm(rows, limit), Earliest(rows, None);
    ProtectedInWindow(rows, limit);
    PrefixDisplay(rows, limit);
    OverflowStormIs(rows, limit);
    var take := PullSize(prefix, storm);
    if take != 0 {
      MakeRoomExact(prefix, protect, take);
      MakeRoomKeeps(prefix, protect, take);
      var kept := MakeRoom(prefix, protect, take);
      PartDisplay(storm[..take], storm, take);
      SwapKeepsDisplay(kept, storm[..take], rows);
    }
  }

  lemma {:induction false} NoCommits(rows: seq<Row>)
    ensures CountOf(rows, COMMIT) == 0 <==> forall e :: e in rows ==> IsIncident(e)
  {
    if |rows| > 0 {
      assert rows[0] in rows;
      NoCommits(rows[1..]);
    }
  }

  lemma {:induction false} CountSplit(rows: seq<Row>, pulled: seq<Row>)
    requires Distinct(rows) && forall e :: e in rows ==> IsIncident(e)
    ensures CountOf(rows, IncidentNotIn(pulled)) + |pulled| >= |rows|
    decreases |rows| + |pulled|
  {
    if |rows| > 0 {
      var e := rows[0];
      assert e in rows;
      if e in pulled {
        var i :| 0 <= i < |pulled| && pulled[i] == e;
        var rest := pulled[..i] + pulled[i + 1..];
        CountSplit(rows[1..], rest);
        CountWithout(rows[1..], pulled, i);
      } else {
        CountSplit(rows[1..], pulled);
      }
    }
  }

  lemma {:induction false} CountWithout(rows: seq<Row>, pulled: seq<Row>, i: nat)
    requires i < |pulled| && pulled[i] !in rows
    ensures CountOf(rows, IncidentNotIn(pulled[..i] + pulled[i + 1..])) == CountOf(rows, IncidentNotIn(pulled))
  {
    if |rows| > 0 {
      var rest := pulled[..i] + pulled[i + 1..];
      assert rows[0] in rows;
      assert rows[0] in pulled <==> rows[0] in rest by {
        assert pulled == pulled[..i] + [pulled[i]] + pulled[i + 1..];
      }
      CountWithout(rows[1..], pulled, i);
    }
  }

  lemma {:induction false} NothingToDrop(rows: seq<Row>, p: Test, n: nat)
    requires forall e :: e in rows ==> !p(e)
    ensures DropFirst(rows, p, n) == rows
  {
    if |rows| > 0 && n > 0 {
      assert rows[0] in rows;
      NothingToDrop(rows[1..], p, n);
    }
  }

  /** With no commit in the window, a cap above the floor leaves room for the earliest one. */
  lemma LateCommitPinned(stage: Stage, pin: seq<Row>, protect: Option<Row>)
    requires Distinct(stage.prefix) && |stage.prefix| > |stage.pulled| && pin != []
    requires forall e :: e in stage.prefix ==> IsIncident(e)
    ensures pin[0] in PinAfterStorm(stage, pin, protect)
  {
    hide DropFirst, CountOf, Distinct, StableSort;
    NoCommits(stage.prefix);
    NothingToDrop(stage.prefix, CommitBut(protect), |pin|);
    CountSplit(stage.prefix, stage.pulled);
    DropFirstSize(stage.prefix, IncidentNotIn(stage.pulled), |pin|);
    var kept := StormKept(stage, protect, |pin|);
    PinEnters(kept, pin, |stage.prefix| - |kept|);
  }

  lemma PinEnters(kept: seq<Row>, pin: seq<Row>, n: nat)
    requires 1 <= n <= |pin|
    ensures pin[0] in StableSort(BY_TIME, kept + pin[..n])
  {
    var all := kept + pin[..n];
    assert all[|kept|] == pin[0];
    TimeOrderTotal();
    StableSortSorts(BY_TIME, all);
    SameElements(StableSort(BY_TIME, all), all);
  }

  lemma LateCommitSwapped(prefix: seq<Row>, pin: seq<Row>)
    requires |prefix| > 1 && pin != [] && forall e :: e in prefix ==> IsIncident(e)
    ensures pin[0] in PinPlain(prefix, pin)
  {
    hide DropLast, CountOf, Distinct, StableSort;
    NoCommits(prefix);
    CommitsAndIncidents(prefix);
    var most := Min(|pin|, |prefix| - 1);
    DropLastIs(prefix, INCIDENT, most);
    PinEnters(DropLast(prefix, INCIDENT, most), pin, most);
  }

  /** Through every evict, pull and pin branch the earliest commit is on the timeline. */
  lemma EarliestCommitShown(rows: seq<Row>, limit: nat)
    requires IsDisplay(rows, rows) && limit > INCIDENT_FLOOR && Earliest(rows, None).Some?
    ensures Earliest(rows, None).value in Select(rows, limit)
  {
    ProtectedInWindow(rows, 0);
    if |rows| > limit {
      var c := Earliest(rows, None).value;
      var stage, storm := FirstStage(rows, limit), OverflowStorm(rows, limit);
      var pin := Pins(rows, limit, stage.prefix);
      ProtectedInWindow(rows, limit);
      FirstStageDisplay(rows, limit);
      FirstStageExact(rows, limit);
      OverflowStormIs(rows, limit);
      PinsAre(rows, limit, stage.prefix);
      PinAfterStormKeeps(stage, pin, Earliest(rows, None), rows);
      PinPlainKeeps(stage.prefix, pin, rows);
      if c !in stage.prefix {
        NoCommits(rows[..limit]);
        assert forall e :: e in stage.prefix ==> IsIncident(e);
        FirstPin(rows, limit, stage.prefix);
        PullSizeIs(rows, limit);
        LateCommitPinned(stage, pin, Earliest(rows, None)) by { assert |stage.pulled| <= INCIDENT_FLOOR; }
        LateCommitSwapped(stage.prefix, pin);
      }
    }
  }

  /** The head of the storm survives to the final timeline, late-commit pinning included. */
  lemma StormShown(rows: seq<Row>, limit: nat)
    requires IsDisplay(rows, rows) && INCIDENT_FLOOR < limit < |rows|
    ensures var storm := OverflowStorm(rows, limit);
            forall e :: e in storm[..Min(INCIDENT_FLOOR, |storm|)] ==> e in Select(rows, limit)
  {
    var stage, storm := FirstStage(rows, limit), OverflowStorm(rows, limit);
    var pin := Pins(rows, limit, stage.prefix);
    FirstStageDisplay(rows, limit);
    FirstStageExact(rows, limit);
    PullSizeIs(rows, limit);
    PinsAre(rows, limit, stage.prefix);
    PinAfterStormKeeps(stage, pin, Earliest(rows, None), rows);
  }

  // ------------------------------------------------------------- the method

  /** Both eviction loops of the first stage. */
  method EvictForStorm(prefix: seq<Row>, protect: Option<Row>, take: nat) returns (kept: seq<Row>, evicted: nat)
    ensures kept == MakeRoom(prefix, protect, take)
    ensures |kept| <= |prefix| && evicted == |prefix| - |kept| && evicted <= take
  {
    MakeRoomKeeps(prefix, protect, take);
    var configs := CountOf(prefix, COMMIT);
    kept, evicted := EvictOldest(prefix, CommitBut(protect), Min(take, if configs > 0 then configs - 1 else 0));
    if evicted < take {
      var dropped;
      kept, dropped := EvictOldest(kept, INCIDENT, take - evicted);
      evicted := evicted + dropped;
    }
  }

  method PullInto(prefix: seq<Row>, storm: seq<Row>, protect: Option<Row>) returns (stage: Stage, take: nat)
    ensures take == PullSize(prefix, storm)
    ensures stage == if take == 0 then Stage(prefix, []) else PullStorm(prefix, storm, protect)
  {
    var configs := CountOf(prefix, COMMIT);
    var budget := if configs > 0 then configs - 1 else 0;
    take := Min(Min(INCIDENT_FLOOR, |storm|), budget + CountOf(prefix, INCIDENT));
    stage := Stage(prefix, []);
    if take != 0 {
      var kept, evicted := EvictForStorm(prefix, protect, take);
      stage := Stage(StableSort(BY_TIME, kept + storm[..evicted]), storm[..evicted]);
    }
  }

  /** The first stage: pull the head of the overflowed storm into the window. */
  method PullLaterStorm(rows: seq<Row>, limit: nat, protect: Option<Row>) returns (stage: Stage, pulledIncidents: bool)
    requires limit <= |rows| && protect == Earliest(rows, None)
    ensures stage == FirstStage(rows, limit)
    ensures pulledIncidents <==> PullSize(rows[..limit], OverflowStorm(rows, limit)) != 0
  {
    var prefix := rows[..limit];
    stage, pulledIncidents := Stage(prefix, []), false;
    var missing := Where(rows, IncidentNotIn(prefix));
    if missing != [] {
      var storm := LaterStormIncidents(prefix, missing);
      var take;
      stage, take := PullInto(prefix, storm, protect);
      pulledIncidents := take != 0;
    }
  }

  /** Both eviction loops of the pin stage: neither the protected commit nor the storm goes. */
  method EvictForPins(stage: Stage, protect: Option<Row>, take: nat) returns (kept: seq<Row>, evicted: nat)
    ensures kept == StormKept(stage, protect, take)
    ensures |kept| <= |stage.prefix| && evicted == |stage.prefix| - |kept| && evicted <= take
  {
    kept, evicted := EvictOldest(stage.prefix, CommitBut(protect), take);
    DropFirstSize(stage.prefix, CommitBut(protect), take);
    if evicted < take {
      DropFirstSize(kept, IncidentNotIn(stage.pulled), take - evicted);
      var dropped;
      kept, dropped := EvictOldest(kept, IncidentNotIn(stage.pulled), take - evicted);
      evicted := evicted + dropped;
    }
  }

  /** The pin stage after a storm was pulled. */
  method PinLate(stage: Stage, pin: seq<Row>, protect: Option<Row>) returns (shown: seq<Row>)
    ensures shown == PinAfterStorm(stage, pin, protect)
  {
    var configs := CountOf(stage.prefix, COMMIT);
    var take := Min(|pin|, if configs > 0 then configs - 1 else |pin|);
    if take == 0 {
      return stage.prefix;
    }
    var kept, evicted := EvictForPins(stage, protect, take);
    shown := StableSort(BY_TIME, kept + pin[..evicted]);
  }

  /** The pin stage when there was no storm to pull. */
  method PinOverNewest(prefix: seq<Row>, pin: seq<Row>) returns (shown: seq<Row>)
    ensures shown == PinPlain(prefix, pin)
  {
    var incidents := CountOf(prefix, INCIDENT);
    var most := Min(|pin|, if incidents > 0 then incidents - 1 else 0);
    if most == 0 {
      return prefix;
    }
    var kept, evicted := EvictNewest(prefix, INCIDENT, most);
    shown := StableSort(BY_TIME, kept + pin[..evicted]);
  }

  /** `_select_timeline_rows` */
  method SelectTimelineRows(events: seq<Row>, limit: nat) returns (shown: seq<Row>)
    requires Distinct(events)
    ensures shown == Select(Rows(events), limit)
    ensures IsDisplay(shown, events) && |shown| == Min(limit, |Rows(events)|)
    ensures limit > INCIDENT_FLOOR && Earliest(Rows(events), None).Some? ==> Earliest(Rows(events), None).value in shown
    ensures INCIDENT_FLOOR < limit < |Rows(events)| ==>
              var storm := OverflowStorm(Rows(events), limit);
              forall e :: e in storm[..Min(INCIDENT_FLOOR, |storm|)] ==> e in shown
  {
    var rows := StableSort(BY_TIME, Where(events, SHOWN));
    RowsDisplay(events);
    SelectDisplay(rows, limit);
    if limit > INCIDENT_FLOOR && Earliest(rows, None).Some? { EarliestCommitShown(rows, limit); }
    if INCIDENT_FLOOR < limit < |rows| { StormShown(rows, limit); }
    if |rows| <= limit {
      return rows;
    }
    var protect := EarliestConfig(rows);
    var stage, pulledIncidents := PullLaterStorm(rows, limit, protect);
    var late := Where(rows, CommitNotIn(stage.prefix, rows[..limit]));
    if late == [] {
      return stage.prefix;
    }
    var pin := late[..Min(CONFIG_PIN, |late|)];
    if pulledIncidents {
      shown := PinLate(stage, pin, protect);
    } else {
      shown := PinOverNewest(stage.prefix, pin);
    }
  }

  // ------------------------------------------------- exactly when the commit is safe

  ghost predicate CommitAlwaysShown(limit: nat) {
    forall rows: seq<Row> :: IsDisplay(rows, rows) && Earliest(rows, None).Some? ==>
      Earliest(rows, None).value in Select(rows, limit)
  }

  /** n incidents of one category at one instant */
  function Burst(n: nat, firstId: nat, category: Category, time: int): seq<Row> {
    seq(n, i requires 0 <= i < n => Row(firstId + i, category, High, Some(time), 0))
  }

  /** As many leftovers as the cap holds, then as many storm rows, then the only commit. */
  function Crowded(limit: nat): seq<Row> {
    Burst(limit, 0, Other(0), 0) + Burst(limit, limit, Other(1), CLUSTER_GAP)
    + [Row(2 * limit, Config, Low, Some(2 * CLUSTER_GAP), 0)]
  }

  lemma CrowdedDisplay(limit: nat)
    ensures IsDisplay(Crowded(limit), Crowded(limit)) && |Crowded(limit)| == 2 * limit + 1
    ensures forall i :: 0 <= i < 2 * limit + 1 ==>
              var e := Crowded(limit)[i];
              e.id == i && e.category == if i < limit then Other(0) else if i < 2 * limit then Other(1) else Config
    ensures forall i :: limit <= i < 2 * limit ==> Crowded(limit)[i].time == Some(CLUSTER_GAP)
  {
  }

  lemma {:induction false} OneCluster(rows: seq<Row>, time: int)
    requires rows != [] && forall i :: 0 <= i < |rows| ==> rows[i].time == Some(time)
    ensures Clusters(rows) == [rows]
  {
    if |rows| > 1 {
      var n := |rows| - 1;
      OneCluster(rows[..n], time);
      assert rows == rows[..n] + [rows[n]];
      assert Clusters(rows) == [rows[..n]][0 := rows[..n] + [rows[n]]];
    } else {
      assert rows == [rows[0]];
    }
  }

  lemma {:induction false} WhereTail(rows: seq<Row>, more: seq<Row>, p: Test)
    ensures Where(rows + more, p) == Where(rows, p) + Where(more, p)
  {
    if |rows| == 0 {
      assert rows + more == more;
    } else {
      assert (rows + more)[1..] == rows[1..] + more;
      WhereTail(rows[1..], more, p);
    }
  }

  lemma {:induction false} WhereAll(rows: seq<Row>, p: Test)
    requires forall e :: e in rows ==> p(e)
    ensures Where(rows, p) == rows
  {
    if |rows| > 0 {
      assert rows[0] in rows;
      WhereAll(rows[1..], p);
    }
  }

  lemma {:induction false} WhereNone(rows: seq<Row>, p: Test)
    requires forall e :: e in rows ==> !p(e)
    ensures Where(rows, p) == []
  {
    if |rows| > 0 {
      assert rows[0] in rows;
      WhereNone(rows[1..], p);
    }
  }

  lemma {:induction false} IncidentsAll(rows: seq<Row>)
    requires forall e :: e in rows ==> IsIncident(e)
    ensures Incidents(rows) == rows
  {
    if |rows| > 0 {
      assert rows[0] in rows;
      IncidentsAll(rows[1..]);
    }
  }

  lemma CrowdedMissing(limit: nat)
    ensures Crowded(limit)[..limit] == Burst(limit, 0, Other(0), 0)
    ensures Where(Crowded(limit), IncidentNotIn(Burst(limit, 0, Other(0), 0))) ==
            Burst(limit, limit, Other(1), CLUSTER_GAP)
  {
    var first, second := Burst(limit, 0, Other(0), 0), Burst(limit, limit, Other(1), CLUSTER_GAP);
    var commit := [Row(2 * limit, Config, Low, Some(2 * CLUSTER_GAP), 0)];
    var p := IncidentNotIn(first);
    WhereTail(first + second, commit, p);
    WhereTail(first, second, p);
    WhereNone(first, p);
    WhereAll(second, p);
    WhereNone(commit, p);
  }

  lemma BurstChosen(limit: nat)
    requires limit > 0
    ensures var first, second := Burst(limit, 0, Other(0), 0), Burst(limit, limit, Other(1), CLUSTER_GAP);
            ChosenStorm(first, second) == second
  {
    var first, second := Burst(limit, 0, Other(0), 0), Burst(limit, limit, Other(1), CLUSTER_GAP);
    IncidentsAll(first);
    assert first[0] in first && first[0].category == Other(0);
    var left := LeftoverOf(first);
    assert left.cats == {Other(0)};
    OneCluster(second, CLUSTER_GAP);
    assert [second][1..] == [];
    assert OtherHeaded([second], left.cats) == [second];
  }

  /** The storm of the crowded timeline is its whole second burst. */
  lemma CrowdedStorm(limit: nat)
    requires limit > 0
    ensures OverflowStorm(Crowded(limit), limit) == Burst(limit, limit, Other(1), CLUSTER_GAP)
  {
    CrowdedMissing(limit);
    BurstChosen(limit);
  }

  /** At or below the floor the storm fills the window and the only commit is lost. */
  lemma CrowdedLoses(limit: nat)
    requires limit <= INCIDENT_FLOOR
    ensures Earliest(Crowded(limit), None).Some?
    ensures Earliest(Crowded(limit), None).value !in Select(Crowded(limit), limit)
  {
    hide StableSort, DropFirst, CountOf, Distinct, OverflowStorm, Where, PullSize;
    var rows := Crowded(limit);
    CrowdedDisplay(limit);
    ProtectedInWindow(rows, limit);
    assert rows[2 * limit] in rows;
    var c := Earliest(rows, None).value;
    assert c == rows[2 * limit];
    FirstStageDisplay(rows, limit);
    SelectDisplay(rows, limit);
    if limit > 0 {
      CrowdedStorm(limit);
      CrowdedStage(limit);
      var stage := FirstStage(rows, limit);
      var pin := Pins(rows, limit, stage.prefix);
      NoCommits(stage.prefix);
      NothingToDrop(stage.prefix, CommitBut(Some(c)), |pin|);
      NothingToDrop(stage.prefix, IncidentNotIn(stage.pulled), |pin|);
      assert StormKept(stage, Some(c), |pin|) == stage.prefix;
      assert stage.prefix + pin[..0] == stage.prefix;
      TimeOrderTotal();
      StableSortSorts(BY_TIME, stage.prefix);
      SameElements(StableSort(BY_TIME, stage.prefix), stage.prefix);
    }
  }

  lemma CrowdedStage(limit: nat)
    requires 0 < limit <= INCIDENT_FLOOR
    ensures var stage := FirstStage(Crowded(limit), limit);
            PullSize(Crowded(limit)[..limit], OverflowStorm(Crowded(limit), limit)) == limit
            && (forall e :: e in stage.prefix ==> e in stage.pulled && IsIncident(e))
            && Crowded(limit)[2 * limit] !in stage.prefix
  {
    var rows := Crowded(limit);
    CrowdedDisplay(limit);
    CrowdedStorm(limit);
    var storm := OverflowStorm(rows, limit);
    NoCommits(rows[..limit]);
    CommitsAndIncidents(rows[..limit]);
    FirstStageDisplay(rows, limit);
    FirstStageExact(rows, limit);
    var stage := FirstStage(rows, limit);
    assert stage.pulled == storm;
    DistinctSize(storm);
    DistinctSize(stage.prefix);
    SubsetFills(Elements(storm), Elements(stage.prefix));
    assert rows[2 * limit].category == Config;
    forall e | e in stage.prefix ensures e in stage.pulled {
      assert e in Elements(stage.prefix);
    }
  }

  lemma SubsetFills(a: set<Row>, b: set<Row>)
    requires a <= b && |a| == |b|
    ensures a == b
  {
    assert |b - a| == |b| - |a|;
  }

  /** The earliest commit survives every timeline exactly when the cap exceeds the storm floor. */
  lemma CommitAlwaysShownIff(limit: nat)
    ensures CommitAlwaysShown(limit) <==> limit > INCIDENT_FLOOR
  {
    if limit > INCIDENT_FLOOR {
      forall rows: seq<Row> | IsDisplay(rows, rows) && Earliest(rows, None).Some?
        ensures Earliest(rows, None).value in Select(rows, limit)
      {
        EarliestCommitShown(rows, limit);
      }
    } else {
      CrowdedDisplay(limit);
      CrowdedLoses(limit);
    }
  }
}
