/** Which rows of the first `limit` leave the capped timeline and which later ones enter it
    (causal.py), read off their places among the sorted rows. Every eviction loop drops the first
    rows of a kind, so what it leaves is told by one place in the window; the two stages put
    together are `StormOrder` and `PlainOrder`. */
module TimelineOrder {
  import opened Options
  import opened LaterStorm
  import opened Ordering
  import opened Timeline

  // --------------------------------------------------------------- places among the rows

  ghost predicate Precedes(rows: seq<Row>, a: Row, b: Row) {
    exists i, j :: 0 <= i < j < |rows| && rows[i] == a && rows[j] == b
  }

  /** s is in the order of rows. */
  ghost predicate InOrderOf(s: seq<Row>, rows: seq<Row>) {
    forall a, b :: 0 <= a < b < |s| ==> Precedes(rows, s[a], s[b])
  }

  lemma PrecedesOnce(rows: seq<Row>, a: Row, b: Row)
    requires Distinct(rows) && Precedes(rows, a, b)
    ensures !Precedes(rows, b, a) && a != b
  {
    var i, j :| 0 <= i < j < |rows| && rows[i] == a && rows[j] == b;
  }

  /** Of the rows of s that satisfy p, a later one stays whenever an earlier one does. */
  ghost predicate OldestLeave(rows: seq<Row>, s: seq<Row>, kept: seq<Row>, p: Test) {
    forall a, b :: Precedes(rows, a, b) && a in s && b in s && p(a) && p(b) && a in kept ==> b in kept
  }

  ghost predicate NewestLeave(rows: seq<Row>, s: seq<Row>, kept: seq<Row>, p: Test) {
    forall a, b :: Precedes(rows, a, b) && a in s && b in s && p(a) && p(b) && b in kept ==> a in kept
  }

  /** Dropping the first rows of a kind drops exactly those before some place. */
  lemma {:induction false} DropFirstCut(s: seq<Row>, p: Test, n: nat) returns (k: nat)
    requires Distinct(s)
    ensures k <= |s| && forall i :: 0 <= i < |s| ==> (s[i] in DropFirst(s, p, n) <==> i >= k || !p(s[i]))
    ensures CountOf(s, p) <= n ==> forall e :: e in DropFirst(s, p, n) ==> !p(e)
  {
    k := 0;
    if |s| > 0 {
      DropFirstKeeps(s, p, n);
      if n > 0 {
        var m := if p(s[0]) then n - 1 else n;
        var j := DropFirstCut(s[1..], p, m);
        k := j + 1;
        DropFirstKeeps(s[1..], p, m);
        assert s[0] !in s[1..];
        forall i | 0 <= i < |s| ensures s[i] in DropFirst(s, p, n) <==> i >= k || !p(s[i]) {
          if i > 0 { assert s[1..][i - 1] == s[i]; }
        }
      } else {
        NoneCounted(s, p);
      }
    }
  }

  lemma {:induction false} NoneCounted(s: seq<Row>, p: Test)
    ensures CountOf(s, p) == 0 ==> forall e :: e in s ==> !p(e)
  {
    if |s| > 0 { NoneCounted(s[1..], p); }
  }

  lemma {:induction false} DropFirstInOrder(s: seq<Row>, p: Test, n: nat, rows: seq<Row>)
    requires InOrderOf(s, rows)
    ensures InOrderOf(DropFirst(s, p, n), rows)
  {
    if |s| > 0 && n > 0 {
      forall a, b | 0 <= a < b < |s[1..]| ensures Precedes(rows, s[1..][a], s[1..][b]) {
        assert Precedes(rows, s[a + 1], s[b + 1]);
      }
      DropFirstInOrder(s[1..], p, if p(s[0]) then n - 1 else n, rows);
      if !p(s[0]) {
        var rest := DropFirst(s[1..], p, n);
        DropFirstKeeps(s[1..], p, n);
        forall b | 0 <= b < |rest| ensures Precedes(rows, s[0], rest[b]) {
          assert rest[b] in rest;
          var k :| 0 <= k < |s[1..]| && s[1..][k] == rest[b];
          assert Precedes(rows, s[0], s[k + 1]);
        }
        InOrderMore(s[0], rest, rows);
      }
    }
  }

  lemma InOrderMore(e: Row, rest: seq<Row>, rows: seq<Row>)
    requires InOrderOf(rest, rows) && forall b :: 0 <= b < |rest| ==> Precedes(rows, e, rest[b])
    ensures InOrderOf([e] + rest, rows)
  {
    var s := [e] + rest;
    forall a, b | 0 <= a < b < |s| ensures Precedes(rows, s[a], s[b]) {
      assert s[b] == rest[b - 1] && (a > 0 ==> s[a] == rest[a - 1]);
    }
  }

  lemma DropOldest(s: seq<Row>, p: Test, n: nat, rows: seq<Row>)
    requires Distinct(rows) && Distinct(s) && InOrderOf(s, rows)
    ensures OldestLeave(rows, s, DropFirst(s, p, n), p) && InOrderOf(DropFirst(s, p, n), rows)
  {
    DropFirstInOrder(s, p, n, rows);
    var k := DropFirstCut(s, p, n);
    var kept := DropFirst(s, p, n);
    hide DropFirst, InOrderOf;
    forall a, b | Precedes(rows, a, b) && a in s && b in s && p(a) && p(b) && a in kept ensures b in kept {
      var i, j := PlacesInOrder(s, rows, a, b);
    }
  }

  lemma PlacesInOrder(s: seq<Row>, rows: seq<Row>, a: Row, b: Row) returns (i: nat, j: nat)
    requires Distinct(rows) && InOrderOf(s, rows) && Precedes(rows, a, b) && a in s && b in s
    ensures i < j < |s| && s[i] == a && s[j] == b
  {
    i :| i < |s| && s[i] == a;
    j :| j < |s| && s[j] == b;
    assert j < i ==> Precedes(rows, s[j], s[i]);
    PrecedesOnce(rows, a, b);
  }

  lemma DropNewest(s: seq<Row>, p: Test, n: nat, rows: seq<Row>)
    requires Distinct(rows) && Distinct(s) && InOrderOf(s, rows)
    ensures NewestLeave(rows, s, DropLast(s, p, n), p)
  {
    var back, kept := Reversed(s), DropLast(s, p, n);
    ReversedIs(s);
    ReversedIs(DropFirst(back, p, n));
    assert Distinct(back) by {
      forall i, j | 0 <= i < j < |back| ensures back[i] != back[j] { assert s[|s| - 1 - j] != s[|s| - 1 - i]; }
    }
    var k := DropFirstCut(back, p, n);
    hide DropFirst, InOrderOf, Reversed, Distinct;
    forall a, b | Precedes(rows, a, b) && a in s && b in s && p(a) && p(b) && b in kept ensures a in kept {
      var i, j := PlacesInOrder(s, rows, a, b);
      assert back[|s| - 1 - i] == a && back[|s| - 1 - j] == b;
    }
  }

  lemma RowsInOrder(rows: seq<Row>, n: nat)
    requires n <= |rows|
    ensures InOrderOf(rows[..n], rows)
  {
    forall a, b | 0 <= a < b < n ensures Precedes(rows, rows[..n][a], rows[..n][b]) {
      assert rows[a] == rows[..n][a] && rows[b] == rows[..n][b];
    }
  }

  lemma {:induction false} WhereInOrder(s: seq<Row>, p: Test, rows: seq<Row>)
    requires InOrderOf(s, rows)
    ensures InOrderOf(Where(s, p), rows)
  {
    if |s| > 0 {
      forall a, b | 0 <= a < b < |s[1..]| ensures Precedes(rows, s[1..][a], s[1..][b]) {
        assert Precedes(rows, s[a + 1], s[b + 1]);
      }
      WhereInOrder(s[1..], p, rows);
      if p(s[0]) {
        var rest := Where(s[1..], p);
        WhereIs(s[1..], p);
        forall b | 0 <= b < |rest| ensures Precedes(rows, s[0], rest[b]) {
          assert rest[b] in rest;
          var k :| 0 <= k < |s[1..]| && s[1..][k] == rest[b];
          assert Precedes(rows, s[0], s[k + 1]);
        }
        InOrderMore(s[0], rest, rows);
      }
    }
  }

  // ------------------------------------------------------------------ the first stage

  /** Rows that are in the order of sorted rows are sorted. */
  lemma InOrderIsSorted(s: seq<Row>, rows: seq<Row>)
    requires SortedBy(BY_TIME, rows) && InOrderOf(s, rows)
    ensures StableSort(BY_TIME, s) == s
  {
    forall a, b | 0 <= a < b < |s| ensures BY_TIME(s[a], s[b]) {
      assert Precedes(rows, s[a], s[b]);
      var i, j :| 0 <= i < j < |rows| && rows[i] == s[a] && rows[j] == s[b];
    }
    SortedStays(BY_TIME, s);
  }

  lemma {:induction false} SortedStays(le: (Row, Row) -> bool, s: seq<Row>)
    requires SortedBy(le, s)
    ensures StableSort(le, s) == s
  {
    if |s| > 0 {
      SortedStays(le, s[1..]);
      assert |s| > 1 ==> le(s[0], s[1]);
    }
  }

  /** The two evictions: commits first, and incidents only once no other commit is left. */
  ghost predicate EvictsInTurn(rows: seq<Row>, window: seq<Row>, kept: seq<Row>, protect: Option<Row>, p: Test) {
    && InOrderOf(kept, rows) && (forall e :: e in kept ==> e in window)
    && OldestLeave(rows, window, kept, CommitBut(protect)) && OldestLeave(rows, window, kept, p)
    && ((exists e :: e in window && p(e) && e !in kept) ==> forall e :: e in kept ==> !CommitBut(protect)(e))
  }

  lemma EvictTwice(rows: seq<Row>, s: seq<Row>, protect: Option<Row>, p: Test, n: nat, more: nat)
    requires Distinct(rows) && Distinct(s) && InOrderOf(s, rows)
    requires forall e :: p(e) ==> IsIncident(e)
    requires more > 0 ==> CountOf(s, CommitBut(protect)) <= n
    ensures var first := DropFirst(s, CommitBut(protect), n);
            EvictsInTurn(rows, s, if more > 0 then DropFirst(first, p, more) else first, protect, p)
  {
    var commit := CommitBut(protect);
    var first := DropFirst(s, commit, n);
    DropOldest(s, commit, n, rows);
    DropFirstKeeps(s, commit, n);
    var k := DropFirstCut(s, commit, n);
    if more > 0 {
      DropOldest(first, p, more, rows);
      DropFirstKeeps(first, p, more);
    }
    hide DropFirst, CountOf, InOrderOf, Precedes, Distinct;
  }

  /** What evicting for the storm leaves of the window. */
  lemma MakeRoomInTurn(rows: seq<Row>, limit: nat, take: nat)
    requires IsDisplay(rows, rows) && limit <= |rows|
    ensures var protect := Earliest(rows, None);
            EvictsInTurn(rows, rows[..limit], MakeRoom(rows[..limit], protect, take), protect, INCIDENT)
  {
    var protect, prefix := Earliest(rows, None), rows[..limit];
    RowsInOrder(rows, limit);
    ProtectedInWindow(rows, limit);
    hide InOrderOf, Precedes, SortedBy, Earliest, EvictsInTurn, MakeRoom;
    UnprotectedCount(prefix, protect);
    var n, more := MakeRoomSteps(prefix, protect, take);
    EvictTwice(rows, prefix, protect, INCIDENT, n, more);
  }

  lemma MakeRoomSteps(prefix: seq<Row>, protect: Option<Row>, take: nat) returns (n: nat, more: nat)
    requires CountOf(prefix, CommitBut(protect)) ==
             if CountOf(prefix, COMMIT) > 0 then CountOf(prefix, COMMIT) - 1 else 0
    ensures var first := DropFirst(prefix, CommitBut(protect), n);
            MakeRoom(prefix, protect, take) == if more > 0 then DropFirst(first, INCIDENT, more) else first
    ensures more > 0 ==> CountOf(prefix, CommitBut(protect)) <= n
  {
    hide DropFirst, CountOf;
    var configs := CountOf(prefix, COMMIT);
    n := Min(take, if configs > 0 then configs - 1 else 0);
    DropFirstSize(prefix, CommitBut(protect), n);
    more := take - (|prefix| - |DropFirst(prefix, CommitBut(protect), n)|);
  }

  /** All commits but the protected one. */
  lemma UnprotectedCount(s: seq<Row>, protect: Option<Row>)
    requires Distinct(s)
    requires CountOf(s, COMMIT) > 0 ==> protect.Some? && protect.value in s && protect.value.category == Config
    ensures CountOf(s, CommitBut(protect)) == if CountOf(s, COMMIT) > 0 then CountOf(s, COMMIT) - 1 else 0
  {
    if CountOf(s, COMMIT) > 0 {
      DropAllCommitsBut(s, protect.value);
    } else {
      FewerCommits(s, protect);
    }
  }

  lemma {:induction false} FewerCommits(s: seq<Row>, protect: Option<Row>)
    ensures CountOf(s, CommitBut(protect)) <= CountOf(s, COMMIT)
  {
    if |s| > 0 { FewerCommits(s[1..], protect); }
  }

  /** The storm is pulled: an incident lies beyond the window, and the window has room besides a commit. */
  ghost predicate Pulls(rows: seq<Row>, limit: nat) {
    && limit < |rows| && (exists e :: e in rows[limit..] && e.category != Config)
    && (limit > 1 || (limit == 1 && rows[0].category != Config))
  }

  lemma PullsIff(rows: seq<Row>, limit: nat)
    requires Distinct(rows) && limit < |rows|
    ensures PullSize(rows[..limit], OverflowStorm(rows, limit)) != 0 <==> Pulls(rows, limit)
  {
    var window := rows[..limit];
    var missing := Where(rows, IncidentNotIn(window));
    WhereIs(rows, IncidentNotIn(window));
    BeyondIs(rows, limit);
    OverflowStormIs(rows, limit);
    CommitsAndIncidents(window);
    hide IsIncident, OverflowStorm, Distinct;
    assert missing != [] ==> missing[0] in missing;
    if limit == 1 {
      assert window[1..] == [];
      assert CountOf(window, COMMIT) == if COMMIT(rows[0]) then 1 else 0;
    }
  }

  lemma BeyondIs(rows: seq<Row>, limit: nat)
    requires Distinct(rows) && limit <= |rows|
    ensures forall e :: e in rows[limit..] <==> e in rows && e !in rows[..limit]
  {
    assert rows == rows[..limit] + rows[limit..];
    forall e | e in rows[limit..] ensures e !in rows[..limit] {
      var i :| limit <= i < |rows| && rows[i] == e;
    }
  }

  lemma {:induction false} SliceInOrder(s: seq<Row>, part: seq<Row>, lo: nat, rows: seq<Row>)
    requires InOrderOf(s, rows) && lo + |part| <= |s| && part == s[lo..lo + |part|]
    ensures InOrderOf(part, rows)
  {
    forall a, b | 0 <= a < b < |part| ensures Precedes(rows, part[a], part[b]) {
      assert Precedes(rows, s[lo + a], s[lo + b]);
    }
  }

  lemma JoinInOrder(a: seq<Row>, b: seq<Row>, limit: nat, rows: seq<Row>)
    requires Distinct(rows) && limit <= |rows| && InOrderOf(a, rows) && InOrderOf(b, rows)
    requires (forall e :: e in a ==> e in rows[..limit]) && forall e :: e in b ==> e in rows[limit..]
    ensures InOrderOf(a + b, rows)
  {
    var s := a + b;
    forall i, j | 0 <= i < j < |s| ensures Precedes(rows, s[i], s[j]) {
      if j < |a| {
        assert Precedes(rows, a[i], a[j]);
      } else if i >= |a| {
        assert Precedes(rows, b[i - |a|], b[j - |a|]);
      } else {
        assert s[i] in a && s[j] in b;
        var x :| 0 <= x < limit && rows[..limit][x] == s[i];
        var y :| 0 <= y < |rows| - limit && rows[limit..][y] == s[j];
        assert rows[x] == s[i] && rows[limit + y] == s[j];
      }
    }
  }

  lemma StormInOrder(rows: seq<Row>, limit: nat, n: nat)
    requires Distinct(rows) && limit <= |rows| && n <= |OverflowStorm(rows, limit)|
    ensures InOrderOf(OverflowStorm(rows, limit)[..n], rows)
    ensures forall e :: e in OverflowStorm(rows, limit)[..n] ==> e in rows[limit..] && IsIncident(e)
  {
    var missing, storm := Where(rows, IncidentNotIn(rows[..limit])), OverflowStorm(rows, limit);
    OverflowStormIs(rows, limit);
    BeyondIs(rows, limit);
    assert rows[..|rows|] == rows;
    RowsInOrder(rows, |rows|);
    WhereInOrder(rows, IncidentNotIn(rows[..limit]), rows);
    if n > 0 {
      var lo: nat :| SliceAt(storm, missing, lo);
      SliceInOrder(missing, storm, lo, rows);
      SliceInOrder(storm, storm[..n], 0, rows);
    }
  }

  /** After the first stage: what is left of the window, and behind it the head of the storm. */
  lemma StageIs(rows: seq<Row>, limit: nat) returns (kept: seq<Row>)
    requires IsDisplay(rows, rows) && limit < |rows|
    ensures var stage := FirstStage(rows, limit);
            && stage.prefix == kept + stage.pulled && InOrderOf(stage.prefix, rows) && Distinct(stage.prefix)
            && EvictsInTurn(rows, rows[..limit], kept, Earliest(rows, None), INCIDENT)
            && (forall e :: e in stage.pulled ==> e in rows[limit..] && IsIncident(e))
            && (!Pulls(rows, limit) ==> kept == rows[..limit])
  {
    hide StableSort, CountOf, OverflowStorm, Earliest, InOrderOf, EvictsInTurn, Pulls, MakeRoom;
    var window, storm, protect := rows[..limit], OverflowStorm(rows, limit), Earliest(rows, None);
    PullsIff(rows, limit);
    FirstStageDisplay(rows, limit);
    FirstStageExact(rows, limit);
    var take := PullSize(window, storm);
    StormInOrder(rows, limit, take);
    if take == 0 {
      kept := window;
      WindowStays(rows, limit, protect);
      assert storm[..0] == [] && window + [] == window;
      RowsInOrder(rows, limit);
    } else {
      kept := MakeRoom(window, protect, take);
      MakeRoomInTurn(rows, limit, take);
      MakeRoomKeeps(window, protect, take);
      InTurnKeeps(rows, window, kept, protect);
      JoinInOrder(kept, storm[..take], limit, rows);
      InOrderIsSorted(kept + storm[..take], rows);
    }
  }

  lemma InTurnKeeps(rows: seq<Row>, window: seq<Row>, kept: seq<Row>, protect: Option<Row>)
    requires EvictsInTurn(rows, window, kept, protect, INCIDENT)
    ensures InOrderOf(kept, rows) && forall e :: e in kept ==> e in window
  {
    hide InOrderOf;
  }

  lemma WindowStays(rows: seq<Row>, limit: nat, protect: Option<Row>)
    requires limit <= |rows|
    ensures EvictsInTurn(rows, rows[..limit], rows[..limit], protect, INCIDENT)
  {
    RowsInOrder(rows, limit);
    hide InOrderOf, Precedes;
  }

  // ----------------------------------------------------------------- the late commits

  /** The commits beyond the window, oldest first. */
  function LateCommits(rows: seq<Row>, limit: nat): seq<Row>
    requires limit <= |rows|
  {
    Where(rows[limit..], COMMIT)
  }

  lemma {:induction false} WhereSame(s: seq<Row>, p: Test, q: Test)
    requires forall e :: e in s ==> (p(e) <==> q(e))
    ensures Where(s, p) == Where(s, q)
  {
    if |s| > 0 {
      assert s[0] in s && forall e :: e in s[1..] ==> e in s;
      WhereSame(s[1..], p, q);
    }
  }

  /** The pins are the first four commits beyond the window. */
  lemma PinsAreLate(rows: seq<Row>, limit: nat, shown: seq<Row>)
    requires Distinct(rows) && limit < |rows|
    requires forall e :: e in shown && e.category == Config ==> e in rows[..limit]
    ensures var late := LateCommits(rows, limit);
            Pins(rows, limit, shown) == late[..if |late| < 4 then |late| else 4]
  {
    var q := CommitNotIn(shown, rows[..limit]);
    BeyondIs(rows, limit);
    assert rows == rows[..limit] + rows[limit..];
    WhereTail(rows[..limit], rows[limit..], q);
    WhereNone(rows[..limit], q);
    WhereSame(rows[limit..], q, COMMIT);
  }

  // --------------------------------------------------------------- who is on the timeline

  /** The late commits shown are the first ones, at most four. */
  ghost predicate LateShown(rows: seq<Row>, limit: nat, shown: seq<Row>, m: nat)
    requires limit <= |rows|
  {
    var late := LateCommits(rows, limit);
    m <= |late| && m <= 4 && forall e :: e in late ==> (e in shown <==> e in late[..m])
  }

  /** Of the window only the protected commit is left, if any. */
  ghost predicate NoOtherCommit(rows: seq<Row>, limit: nat, shown: seq<Row>)
    requires limit <= |rows|
  {
    forall e :: e in shown && e in rows[..limit] && e.category == Config ==> Earliest(rows, None) == Some(e)
  }

  /** Of the incidents beyond the window the first eight of the later storm are shown, or as many as
      there is room for beside one commit. */
  ghost predicate StormHeadShown(rows: seq<Row>, limit: nat, shown: seq<Row>)
    requires limit <= |rows|
  {
    var room := if exists e :: e in rows[..limit] && e.category == Config then limit - 1 else limit;
    var storm := OverflowStorm(rows, limit);
    var n := Min(Min(8, |storm|), if room > 0 then room else 0);
    forall e :: e in rows[limit..] && e.category != Config ==> (e in shown <==> e in storm[..n])
  }

  /** With a storm pulled in, the oldest rows of the window leave: commits first, the earliest one
      excepted, and incidents only once no other commit is left; fewer late commits than there is
      room for enter only if no other commit is left to give way. */
  ghost predicate StormOrder(rows: seq<Row>, limit: nat, shown: seq<Row>)
    requires limit <= |rows|
  {
    && OldestLeave(rows, rows[..limit], shown, CommitBut(Earliest(rows, None)))
    && OldestLeave(rows, rows[..limit], shown, INCIDENT)
    && ((exists e :: e in rows[..limit] && IsIncident(e) && e !in shown) ==> NoOtherCommit(rows, limit, shown))
    && StormHeadShown(rows, limit, shown)
    && exists m: nat :: LateShown(rows, limit, shown, m)
                        && (m < 4 && m < |LateCommits(rows, limit)| ==> NoOtherCommit(rows, limit, shown))
  }

  /** The incidents of the window but one. */
  function Spare(rows: seq<Row>, limit: nat): nat
    requires limit <= |rows|
  {
    var incidents := CountOf(rows[..limit], INCIDENT);
    if incidents > 0 then incidents - 1 else 0
  }

  /** Without a storm every commit of the window stays and the newest incidents give way to the late
      commits, but for the last one. */
  ghost predicate PlainOrder(rows: seq<Row>, limit: nat, shown: seq<Row>)
    requires limit <= |rows|
  {
    && (forall e :: e in rows[..limit] && e.category == Config ==> e in shown)
    && NewestLeave(rows, rows[..limit], shown, INCIDENT)
    && LateShown(rows, limit, shown, Min(Min(4, |LateCommits(rows, limit)|), Spare(rows, limit)))
    && forall e :: e in rows[limit..] && e.category != Config ==> e !in shown
  }

  lemma StormKeptInTurn(stage: Stage, rows: seq<Row>, protect: Option<Row>, take: nat)
    requires Distinct(rows) && Distinct(stage.prefix) && InOrderOf(stage.prefix, rows)
    ensures EvictsInTurn(rows, stage.prefix, StormKept(stage, protect, take), protect, IncidentNotIn(stage.pulled))
    ensures |stage.prefix| - |StormKept(stage, protect, take)| < take ==>
              forall e :: e in StormKept(stage, protect, take) ==> !CommitBut(protect)(e)
  {
    hide StormKept, EvictsInTurn, InOrderOf, Distinct, DropFirst;
    var more := StormKeptSteps(stage, protect, take);
    EvictTwice(rows, stage.prefix, protect, IncidentNotIn(stage.pulled), take, more);
  }

  lemma StormKeptSteps(stage: Stage, protect: Option<Row>, take: nat) returns (more: nat)
    requires Distinct(stage.prefix)
    ensures var first := DropFirst(stage.prefix, CommitBut(protect), take);
            StormKept(stage, protect, take) ==
            if more > 0 then DropFirst(first, IncidentNotIn(stage.pulled), more) else first
    ensures more > 0 ==> CountOf(stage.prefix, CommitBut(protect)) <= take
    ensures |stage.prefix| - |StormKept(stage, protect, take)| < take ==>
              forall e :: e in StormKept(stage, protect, take) ==> !CommitBut(protect)(e)
  {
    var first := DropFirst(stage.prefix, CommitBut(protect), take);
    DropFirstSize(stage.prefix, CommitBut(protect), take);
    more := if |stage.prefix| - |first| < take then take - (|stage.prefix| - |first|) else 0;
    var k := DropFirstCut(stage.prefix, CommitBut(protect), take);
    DropFirstKeeps(first, IncidentNotIn(stage.pulled), more);
    DropFirstSize(first, IncidentNotIn(stage.pulled), more);
    hide DropFirst, Distinct, CountOf;
  }

  /** What of the window is left after both stages. */
  ghost predicate LeftOf(shown: seq<Row>, window: seq<Row>, kept: seq<Row>, left: seq<Row>, pulled: seq<Row>) {
    && (forall e :: e in window ==> (e in shown <==> e in left) && e !in pulled)
    && (forall e :: e in left ==> e in kept || e in pulled)
  }

  lemma TwoStages(rows: seq<Row>, limit: nat, stage: Stage, kept: seq<Row>, left: seq<Row>, shown: seq<Row>)
    requires limit <= |rows| && stage.prefix == kept + stage.pulled
    requires EvictsInTurn(rows, rows[..limit], kept, Earliest(rows, None), INCIDENT)
    requires EvictsInTurn(rows, stage.prefix, left, Earliest(rows, None), IncidentNotIn(stage.pulled))
    requires LeftOf(shown, rows[..limit], kept, left, stage.pulled)
    ensures OldestLeave(rows, rows[..limit], shown, CommitBut(Earliest(rows, None)))
    ensures OldestLeave(rows, rows[..limit], shown, INCIDENT)
    ensures (exists e :: e in rows[..limit] && IsIncident(e) && e !in shown) ==> NoOtherCommit(rows, limit, shown)
  {
    hide InOrderOf, Precedes, Earliest;
    var window, protect := rows[..limit], Earliest(rows, None);
    if e :| e in window && IsIncident(e) && e !in shown {
      assert INCIDENT(e) && IncidentNotIn(stage.pulled)(e);
      forall c | c in shown && c in window && c.category == Config ensures protect == Some(c) {
        assert c in left && c in kept;
        assert CommitBut(protect)(c) <==> protect != Some(c);
      }
    }
  }

  lemma LateAre(rows: seq<Row>, limit: nat)
    requires Distinct(rows) && limit <= |rows|
    ensures forall e :: e in LateCommits(rows, limit) <==> e in rows[limit..] && e.category == Config
    ensures forall e :: e in LateCommits(rows, limit) ==> e !in rows[..limit]
    ensures Distinct(LateCommits(rows, limit))
  {
    WhereIs(rows[limit..], COMMIT);
    BeyondIs(rows, limit);
  }

  /** The first stage left `kept` and the storm, the second one `left` of that and m late commits. */
  ghost predicate Ends(
    rows: seq<Row>, limit: nat, stage: Stage, kept: seq<Row>, left: seq<Row>, shown: seq<Row>, m: nat)
    requires limit <= |rows|
  {
    var late := LateCommits(rows, limit);
    && stage.prefix == kept + stage.pulled && m <= |late| && m <= 4
    && (forall e :: e in kept ==> e in rows[..limit])
    && (forall e :: e in stage.pulled ==> e in rows[limit..] && IsIncident(e))
    && (forall e :: e in left ==> e in stage.prefix)
    && (forall e :: e in shown <==> e in left || e in late[..m])
  }

  lemma EndsMean(rows: seq<Row>, limit: nat, stage: Stage, kept: seq<Row>, left: seq<Row>, shown: seq<Row>, m: nat)
    requires Distinct(rows) && limit <= |rows| && Ends(rows, limit, stage, kept, left, shown, m)
    ensures LateShown(rows, limit, shown, m) && LeftOf(shown, rows[..limit], kept, left, stage.pulled)
    ensures stage.prefix == kept + stage.pulled
    ensures (forall e :: e in stage.pulled ==> e in left) ==>
              forall e :: e in rows[limit..] && e.category != Config ==> (e in shown <==> e in stage.pulled)
  {
    LateAre(rows, limit);
    BeyondIs(rows, limit);
    hide LateCommits, Distinct;
    var late := LateCommits(rows, limit);
    forall e | e in late[..m] ensures e in late {}
  }

  lemma StormEnds(rows: seq<Row>, limit: nat, stage: Stage, kept: seq<Row>, left: seq<Row>, shown: seq<Row>, m: nat)
    requires Distinct(rows) && limit <= |rows| && Ends(rows, limit, stage, kept, left, shown, m)
    requires EvictsInTurn(rows, rows[..limit], kept, Earliest(rows, None), INCIDENT)
    requires EvictsInTurn(rows, stage.prefix, left, Earliest(rows, None), IncidentNotIn(stage.pulled))
    requires m < 4 && m < |LateCommits(rows, limit)| ==>
               forall e :: e in left ==> !CommitBut(Earliest(rows, None))(e)
    requires stage == FirstStage(rows, limit) && (forall e :: e in stage.pulled ==> e in left) && IsDisplay(rows, rows)
    ensures StormOrder(rows, limit, shown)
  {
    hide EvictsInTurn, LateCommits, Earliest, Ends, LateShown, OldestLeave, Distinct, StormHeadShown, FirstStage;
    PulledIsHead(rows, limit, shown);
    EndsMean(rows, limit, stage, kept, left, shown, m);
    TwoStages(rows, limit, stage, kept, left, shown);
    if m < 4 && m < |LateCommits(rows, limit)| {
      forall e | e in shown && e in rows[..limit] && e.category == Config ensures Earliest(rows, None) == Some(e) {
        assert e in left;
      }
    }
  }

  lemma PulledIsHead(rows: seq<Row>, limit: nat, shown: seq<Row>)
    requires IsDisplay(rows, rows) && limit <= |rows|
    ensures (forall e :: e in rows[limit..] && e.category != Config ==>
               (e in shown <==> e in FirstStage(rows, limit).pulled))
              ==> StormHeadShown(rows, limit, shown)
  {
    hide OverflowStorm, FirstStage, Distinct, SortedBy, CountOf;
    FirstStageExact(rows, limit);
    CommitsAndIncidents(rows[..limit]);
    NoCommits(rows[..limit]);
  }

  lemma NothingLeaves(rows: seq<Row>, s: seq<Row>, protect: Option<Row>, p: Test)
    requires InOrderOf(s, rows)
    ensures EvictsInTurn(rows, s, s, protect, p)
  {
    hide InOrderOf, Precedes;
  }

  /** The commits left after the first stage, but for the protected one. */
  lemma StageCommits(rows: seq<Row>, limit: nat)
    requires IsDisplay(rows, rows) && limit < |rows|
    ensures var s, protect := FirstStage(rows, limit).prefix, Earliest(rows, None);
            CountOf(s, CommitBut(protect)) == if CountOf(s, COMMIT) > 0 then CountOf(s, COMMIT) - 1 else 0
  {
    var s, protect := FirstStage(rows, limit).prefix, Earliest(rows, None);
    var kept := StageIs(rows, limit);
    FirstStageExact(rows, limit);
    ProtectedInWindow(rows, limit);
    if CountOf(s, COMMIT) > 0 {
      SomeCommit(s);
      var c :| c in s && c.category == Config;
      assert c in kept && c in rows[..limit] by { InTurnKeeps(rows, rows[..limit], kept, protect); }
      NoCommits(rows[..limit]);
    }
    UnprotectedCount(s, protect);
  }

  lemma SomeCommit(s: seq<Row>)
    requires CountOf(s, COMMIT) > 0
    ensures exists c :: c in s && c.category == Config
  {
    NoCommits(s);
  }

  /** How the timeline is filled when a storm was pulled in. */
  lemma StormOrderHolds(rows: seq<Row>, limit: nat)
    requires IsDisplay(rows, rows) && limit < |rows| && Pulls(rows, limit)
    ensures StormOrder(rows, limit, Select(rows, limit))
  {
    hide StormOrder, EvictsInTurn, LateCommits, Earliest, FirstStage, Pins, InOrderOf, CountOf, PinAfterStorm, SortedBy;
    hide Select, Pulls;
    var stage, protect := FirstStage(rows, limit), Earliest(rows, None);
    var kept := StageIs(rows, limit);
    InTurnKeeps(rows, rows[..limit], kept, protect);
    SelectWithStorm(rows, limit);
    PinsAreLate(rows, limit, stage.prefix);
    var pin := Pins(rows, limit, stage.prefix);
    var left, m := stage.prefix, 0;
    if pin == [] {
      NothingLeaves(rows, left, protect, IncidentNotIn(stage.pulled));
    } else {
      left, m := PinnedEnds(rows, limit, stage, pin);
    }
    FirstPins(LateCommits(rows, limit), pin, m);
    var shown := Select(rows, limit);
    assert Ends(rows, limit, stage, kept, left, shown, m);
    hide Ends;
    StormEnds(rows, limit, stage, kept, left, shown, m);
  }

  lemma FirstPins(late: seq<Row>, pin: seq<Row>, m: nat)
    requires pin == late[..if |late| < 4 then |late| else 4] && m <= |pin|
    ensures m <= |late| && m <= 4 && pin[..m] == late[..m] && (m < 4 && m < |late| ==> m < |pin|)
    ensures m == 0 ==> late[..m] == []
  {
  }

  lemma SelectWithStorm(rows: seq<Row>, limit: nat)
    requires Distinct(rows) && limit < |rows| && Pulls(rows, limit)
    ensures var stage := FirstStage(rows, limit);
            var pin := Pins(rows, limit, stage.prefix);
            Select(rows, limit) == if pin == [] then stage.prefix else PinAfterStorm(stage, pin, Earliest(rows, None))
  {
    hide Pulls, FirstStage, Pins, PinAfterStorm, Earliest, PullSize, OverflowStorm, Distinct;
    PullsIff(rows, limit);
  }

  lemma PinnedEnds(rows: seq<Row>, limit: nat, stage: Stage, pin: seq<Row>) returns (left: seq<Row>, m: nat)
    requires IsDisplay(rows, rows) && limit < |rows| && stage == FirstStage(rows, limit) && pin != []
    requires pin == Pins(rows, limit, stage.prefix)
    ensures EvictsInTurn(rows, stage.prefix, left, Earliest(rows, None), IncidentNotIn(stage.pulled))
    ensures m <= |pin| && (m < |pin| ==> forall e :: e in left ==> !CommitBut(Earliest(rows, None))(e))
    ensures forall e :: e in left ==> e in stage.prefix
    ensures forall e :: e in stage.pulled ==> e in left
    ensures forall e :: e in PinAfterStorm(stage, pin, Earliest(rows, None)) <==> e in left || e in pin[..m]
  {
    hide EvictsInTurn, Earliest, FirstStage, Pins, InOrderOf, CountOf, StormKept, SortedBy, Distinct;
    var protect := Earliest(rows, None);
    var kept := StageIs(rows, limit);
    FirstStageDisplay(rows, limit);
    PinsAre(rows, limit, stage.prefix);
    StageCommits(rows, limit);
    var configs := CountOf(stage.prefix, COMMIT);
    var take := Min(|pin|, if configs > 0 then configs - 1 else |pin|);
    if take == 0 {
      left, m := stage.prefix, 0;
      NothingLeaves(rows, left, protect, IncidentNotIn(stage.pulled));
      NoneCounted(left, CommitBut(protect));
    } else {
      left := StormKept(stage, protect, take);
      StormKeptKeeps(stage, protect, take);
      StormKeptInTurn(stage, rows, protect, take);
      PinSwap(stage.prefix, left, pin, rows);
      m := |stage.prefix| - |left|;
      if m == take < |pin| { AllDropped(stage, protect, take); }
    }
  }

  /** As many commits dropped as there are unprotected ones. */
  lemma AllDropped(stage: Stage, protect: Option<Row>, take: nat)
    requires Distinct(stage.prefix) && CountOf(stage.prefix, CommitBut(protect)) <= take
    ensures forall e :: e in StormKept(stage, protect, take) ==> !CommitBut(protect)(e)
  {
    var k := DropFirstCut(stage.prefix, CommitBut(protect), take);
    var more := StormKeptSteps(stage, protect, take);
    DropFirstKeeps(DropFirst(stage.prefix, CommitBut(protect), take), IncidentNotIn(stage.pulled), more);
  }

  /** How it is filled when there is none. */
  lemma PlainOrderHolds(rows: seq<Row>, limit: nat)
    requires IsDisplay(rows, rows) && limit < |rows| && !Pulls(rows, limit)
    ensures PlainOrder(rows, limit, Select(rows, limit))
  {
    hide Earliest, Pins, InOrderOf, CountOf, SortedBy, Distinct, LateCommits, Pulls, Select, PinPlain, Spare;
    hide NewestLeave, LateShown;
    SelectWithout(rows, limit);
    PinsAreLate(rows, limit, rows[..limit]);
    PinsAre(rows, limit, rows[..limit]);
    var pin := Pins(rows, limit, rows[..limit]);
    var most := Min(|pin|, Spare(rows, limit));
    var left := PlainLeft(rows, limit, pin, most);
    FirstPins(LateCommits(rows, limit), pin, most);
    PlainEnds(rows, limit, left, Select(rows, limit), most);
  }

  lemma SelectWithout(rows: seq<Row>, limit: nat)
    requires IsDisplay(rows, rows) && limit < |rows| && !Pulls(rows, limit)
    ensures Select(rows, limit) == PinPlain(rows[..limit], Pins(rows, limit, rows[..limit]))
  {
    hide Pulls, Pins, CountOf, OverflowStorm, PullSize, DropLast, StableSort;
    PullsIff(rows, limit);
    assert FirstStage(rows, limit) == Stage(rows[..limit], []);
  }

  lemma PlainEnds(rows: seq<Row>, limit: nat, left: seq<Row>, shown: seq<Row>, m: nat)
    requires Distinct(rows) && limit <= |rows| && m <= |LateCommits(rows, limit)| && m <= 4
    requires forall e :: e in left ==> e in rows[..limit]
    requires forall e :: e in shown <==> e in left || e in LateCommits(rows, limit)[..m]
    requires NewestLeave(rows, rows[..limit], left, INCIDENT)
    ensures LateShown(rows, limit, shown, m) && NewestLeave(rows, rows[..limit], shown, INCIDENT)
    ensures forall e :: e in rows[limit..] && e.category != Config ==> e !in shown
    ensures forall e :: e in rows[..limit] ==> (e in shown <==> e in left)
  {
    hide LateCommits, Distinct, LateShown, Precedes;
    var stage := Stage(rows[..limit], []);
    assert rows[..limit] + [] == rows[..limit];
    EndsMean(rows, limit, stage, rows[..limit], left, shown, m);
  }

  lemma PlainLeft(rows: seq<Row>, limit: nat, pin: seq<Row>, most: nat) returns (left: seq<Row>)
    requires IsDisplay(rows, rows) && limit <= |rows| && most == Min(|pin|, Spare(rows, limit))
    requires Distinct(pin) && forall e :: e in pin ==> e in rows && e !in rows[..limit]
    ensures NewestLeave(rows, rows[..limit], left, INCIDENT)
    ensures forall e :: e in left ==> e in rows[..limit]
    ensures forall e :: e in rows[..limit] && e.category == Config ==> e in left
    ensures forall e :: e in PinPlain(rows[..limit], pin) <==> e in left || e in pin[..most]
  {
    hide InOrderOf, CountOf, SortedBy, Distinct, DropLast, StableSort;
    var window := rows[..limit];
    PrefixDisplay(rows, limit);
    RowsInOrder(rows, limit);
    DropLastIs(window, INCIDENT, most);
    DropNewest(window, INCIDENT, most, rows);
    left := if most == 0 then window else DropLast(window, INCIDENT, most);
    if most != 0 { PinSwap(window, left, pin, rows); }
  }

  /** What the rows are before the cap: the actionable events and all commits, by time, an unread
      stamp last, and then by host. */
  lemma RowsMean(events: seq<Row>)
    requires Distinct(events)
    ensures forall e :: e in Rows(events) <==>
              e in events && (e.category == Config || (e.severity != Low && e.severity != Info))
    ensures forall i, j :: 0 <= i < j < |Rows(events)| ==>
              var a, b := Rows(events)[i], Rows(events)[j];
              var s := if a.time.Some? then a.time.value else 315_537_897_599_999_999;
              var t := if b.time.Some? then b.time.value else 315_537_897_599_999_999;
              s < t || (s == t && a.host <= b.host)
  {
    RowsDisplay(events);
    hide Rows;
    forall i, j | 0 <= i < j < |Rows(events)| ensures TimeLe(Rows(events)[i], Rows(events)[j]) {
      assert BY_TIME(Rows(events)[i], Rows(events)[j]);
    }
  }
}
