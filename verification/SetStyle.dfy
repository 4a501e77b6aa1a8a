/** The chunker for set-style configs (rag.py): consecutive statements on one path. A run ends where
    the path changes or a line is missing, and is cut into windows only when it is too long. */
module SetStyle {
  import opened ChunkWindows
  import opened Options
  import opened Text

  predicate IsStatement(raw: string) {
    var s := Strip(raw);
    "set " <= s || "deactivate " <= s || "delete " <= s
  }

  function StatementKey(raw: string): string {
    var words := Words(Strip(raw));
    if words != [] && words[0] == "set" then Join(Upto(words, 4)[1..]) else Join(Upto(words, 4))
  }

  function Upto<T>(s: seq<T>, n: nat): seq<T> {
    if |s| <= n then s else s[..n]
  }

  /** The statements among the first n lines, with their 1-based numbers. */
  function Statements(lines: seq<string>, n: nat): seq<(nat, string)>
    requires n <= |lines|
  {
    if n == 0 then []
    else Statements(lines, n - 1) + if IsStatement(lines[n - 1]) then [(n, lines[n - 1])] else []
  }

  /** Consecutive statements on one path. */
  ghost predicate OnePath(c: Chunk) {
    forall k :: 0 <= k < |c.lines| ==> StatementKey(c.lines[k]) == c.heading && NumAt(c, k) == c.start + k
  }

  /** Neighbouring chunks are different runs, unless the first is a full window. */
  ghost predicate RunEnds(a: Chunk, b: Chunk) {
    a.heading != b.heading || b.start != a.end + 1 || |a.lines| == WINDOW_LINES
  }

  ghost predicate RunEndsAt(out: seq<Chunk>, k: int) {
    0 <= k < |out| - 1 ==> RunEnds(out[k], out[k + 1])
  }

  ghost predicate RunsEnd(out: seq<Chunk>) {
    forall k :: RunEndsAt(out, k)
  }

  lemma RunsJoin(a: seq<Chunk>, b: seq<Chunk>)
    requires RunsEnd(a) && RunsEnd(b)
    requires a != [] && b != [] ==> RunEnds(a[|a| - 1], b[0])
    ensures RunsEnd(a + b)
  {
    forall k ensures RunEndsAt(a + b, k) {
      assert RunEndsAt(a, k) && RunEndsAt(b, k - |a|);
    }
  }

  lemma OnePathWindow(c: Chunk, d: Chunk)
    requires OnePath(c) && WindowOf(c, d) && WellNumbered(d)
    ensures OnePath(d)
  {
    hide StatementKey;
    var off: nat :| WindowAt(c, d, off);
    forall k | 0 <= k < |d.lines| ensures StatementKey(d.lines[k]) == d.heading && NumAt(d, k) == d.start + k {
      assert d.lines[k] == c.lines[off + k];
      assert NumAt(d, k) == NumAt(c, off + k) && NumAt(d, 0) == NumAt(c, off + 0);
    }
  }

  ghost predicate RunChunk(d: Chunk) {
    WellNumbered(d) && OnePath(d) && |d.lines| <= MAX_CHUNK_LINES
  }

  /** Finished runs: short, on one path each, and not cut where they could go on. */
  ghost predicate Runs(out: seq<Chunk>) {
    RunsEnd(out) && forall d :: d in out ==> RunChunk(d)
  }

  ghost predicate RunEndsBefore(out: seq<Chunk>, c: Chunk) {
    out != [] ==> RunEnds(out[|out| - 1], c)
  }

  lemma WindowsAreRuns(cur: Chunk, parts: seq<Chunk>)
    requires WellNumbered(cur) && OnePath(cur)
    requires parts != [] && PartsOf(cur, parts) && FullWindows(parts, |parts| - 1) && WindowAt(cur, parts[0], 0)
    ensures Runs(parts) && parts[0].start == cur.start
    ensures parts[0].heading == cur.heading == parts[|parts| - 1].heading
  {
    forall d | d in parts ensures RunChunk(d) {
      assert PartOf(cur, d);
      OnePathWindow(cur, d);
    }
    assert RunsEnd(parts);
    assert parts[|parts| - 1] in parts && PartOf(cur, parts[|parts| - 1]);
    var first := parts[0];
    assert first in parts && PartOf(cur, first) && NumAt(first, 0) == NumAt(cur, 0 + 0);
  }

  /** Flushing a finished run. */
  method FlushRun(out0: seq<Chunk>, cur: Chunk) returns (out: seq<Chunk>)
    requires WellNumbered(cur) && OnePath(cur) && Runs(out0) && RunEndsBefore(out0, cur)
    ensures AllPairs(out) == AllPairs(out0) + Pairs(cur) && Runs(out)
    ensures out != [] && out[|out| - 1].end == cur.end && out[|out| - 1].heading == cur.heading
  {
    var parts := Windows(cur);
    WindowsAreRuns(cur, parts);
    AllPairsJoin(out0, parts);
    RunsJoin(out0, parts);
    out := out0 + parts;
  }

  ghost predicate Growing(out: seq<Chunk>, cur: Option<Chunk>) {
    match cur
    case None => out == []
    case Some(c) => WellNumbered(c) && OnePath(c) && |c.nums| == |c.lines| && RunEndsBefore(out, c)
  }

  ghost predicate Scanned(lines: seq<string>, n: nat, out: seq<Chunk>, cur: Option<Chunk>)
    requires n <= |lines|
  {
    Runs(out) && Growing(out, cur) && AllPairs(out) + CurrentPairs(cur) == Statements(lines, n)
  }

  /** A statement that does not continue the current run. */
  method NextRun(out0: seq<Chunk>, cur: Option<Chunk>, num: nat, raw: string) returns (out: seq<Chunk>, next: Chunk)
    requires Runs(out0) && Growing(out0, cur)
    requires cur.Some? ==> cur.value.heading != StatementKey(raw) || num != cur.value.end + 1
    ensures Runs(out) && Growing(out, Some(next))
    ensures AllPairs(out) + Pairs(next) == AllPairs(out0) + CurrentPairs(cur) + [(num, raw)]
  {
    out := out0;
    if cur.Some? {
      out := FlushRun(out, cur.value);
    }
    next := Chunk(num, num, StatementKey(raw), [raw], [num]);
    StartsRun(out, num, raw);
  }

  /** `_set_chunks` */
  method SetChunks(lines: seq<string>) returns (out: seq<Chunk>)
    ensures AllPairs(out) == Statements(lines, |lines|)
    ensures Runs(out)
  {
    out := [];
    var cur: Option<Chunk> := None;
    NoRuns();
    hide Pairs, AllPairs, Runs, Growing, IsStatement, StatementKey;
    for i := 0 to |lines|
      invariant Scanned(lines, i, out, cur)
    {
      if IsStatement(lines[i]) {
        if cur.Some? && cur.value.heading == StatementKey(lines[i]) && i + 1 == cur.value.end + 1 {
          GrownKeeps(out, cur.value, lines[i]);
          cur := Some(Grown(cur.value, i + 1, lines[i]));
        } else {
          var next: Chunk;
          out, next := NextRun(out, cur, i + 1, lines[i]);
          cur := Some(next);
        }
      }
    }
    if cur.Some? {
      out := LastRun(out, cur.value);
    }
  }

  method LastRun(out0: seq<Chunk>, cur: Chunk) returns (out: seq<Chunk>)
    requires Runs(out0) && Growing(out0, Some(cur))
    ensures Runs(out) && AllPairs(out) == AllPairs(out0) + Pairs(cur)
  {
    out := FlushRun(out0, cur);
  }

  lemma NoRuns()
    ensures Runs([]) && Growing([], None) && AllPairs([]) == []
  {
  }

  lemma GrownKeeps(out: seq<Chunk>, c: Chunk, raw: string)
    requires Growing(out, Some(c)) && StatementKey(raw) == c.heading
    ensures Growing(out, Some(Grown(c, c.end + 1, raw)))
    ensures Pairs(Grown(c, c.end + 1, raw)) == Pairs(c) + [(c.end + 1, raw)]
  {
    GrownPairs(c, c.end + 1, raw);
    assert NumAt(c, |c.lines| - 1) == c.start + (|c.lines| - 1);
  }

  lemma StartsRun(out: seq<Chunk>, num: nat, raw: string)
    requires out != [] ==> out[|out| - 1].heading != StatementKey(raw) || num != out[|out| - 1].end + 1
    ensures Growing(out, Some(Chunk(num, num, StatementKey(raw), [raw], [num])))
    ensures Pairs(Chunk(num, num, StatementKey(raw), [raw], [num])) == [(num, raw)]
  {
  }
}
