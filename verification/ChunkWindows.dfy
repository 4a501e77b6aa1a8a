/** Numbered chunks of a configuration and their windows (rag.py). `Pairs` are the numbered lines of
    a chunk; that the pairs of all chunks, one after the other, are the kept lines of the file is
    what every chunker below is proved against. */
module ChunkWindows {
  import opened Options

  const MAX_CHUNK_LINES: nat := 60
  const WINDOW_LINES: nat := 40

  /** nums holds the line numbers in the file, from 1; empty if start says it all. */
  datatype Chunk = Chunk(start: nat, end: nat, heading: string, lines: seq<string>, nums: seq<nat>)

  function NumAt(c: Chunk, k: nat): nat {
    if k < |c.nums| then c.nums[k] else c.start + k
  }

  function Pairs(c: Chunk): seq<(nat, string)> {
    seq(|c.lines|, k requires 0 <= k < |c.lines| => (NumAt(c, k), c.lines[k]))
  }

  function AllPairs(chunks: seq<Chunk>): seq<(nat, string)> {
    if chunks == [] then [] else AllPairs(chunks[..|chunks| - 1]) + Pairs(chunks[|chunks| - 1])
  }

  ghost predicate WellNumbered(c: Chunk) {
    && c.lines != [] && (c.nums == [] || |c.nums| == |c.lines|)
    && c.start == NumAt(c, 0) && c.end == NumAt(c, |c.lines| - 1)
  }

  /** d is the stretch of c from off. */
  ghost predicate WindowAt(c: Chunk, d: Chunk, off: nat) {
    && off + |d.lines| <= |c.lines| && d.lines == c.lines[off..off + |d.lines|] && d.heading == c.heading
    && forall k :: 0 <= k < |d.lines| ==> NumAt(d, k) == NumAt(c, off + k)
  }

  ghost predicate WindowOf(c: Chunk, d: Chunk) {
    exists off: nat :: WindowAt(c, d, off)
  }

  lemma AllPairsMore(a: seq<Chunk>, c: Chunk)
    ensures AllPairs(a + [c]) == AllPairs(a) + Pairs(c) && AllPairs([]) == []
  {
    assert (a + [c])[..|a|] == a;
  }

  lemma {:induction false} AllPairsJoin(a: seq<Chunk>, b: seq<Chunk>)
    ensures AllPairs(a + b) == AllPairs(a) + AllPairs(b)
  {
    hide AllPairs, Pairs;
    if b == [] {
      assert a + b == a;
      assert AllPairs(b) == [] by { AllPairsMore(b, Chunk(0, 0, "", [], [])); }
    } else {
      var init, last := b[..|b| - 1], b[|b| - 1];
      calc {
        AllPairs(a + b);
        { assert a + b == (a + init) + [last]; }
        AllPairs((a + init) + [last]);
        { AllPairsMore(a + init, last); }
        AllPairs(a + init) + Pairs(last);
        { AllPairsJoin(a, init); }
        AllPairs(a) + AllPairs(init) + Pairs(last);
        { AllPairsMore(init, last); assert b == init + [last]; }
        AllPairs(a) + AllPairs(b);
      }
    }
  }

  lemma WindowExtends(c: Chunk, d: Chunk, off: nat)
    requires WindowAt(c, d, off)
    ensures Pairs(c)[..off + |d.lines|] == Pairs(c)[..off] + Pairs(d)
  {
    forall k | 0 <= k < |d.lines| ensures Pairs(c)[off + k] == Pairs(d)[k] {
      assert NumAt(d, k) == NumAt(c, off + k);
    }
  }

  /** d is the stretch of c before off. */
  ghost predicate EndsAt(c: Chunk, d: Chunk, off: nat) {
    0 < |d.lines| <= off && WindowAt(c, d, off - |d.lines|) && d.end == NumAt(c, off - 1)
  }

  /** A stretch of c short enough to be a chunk. */
  ghost predicate PartOf(c: Chunk, d: Chunk) {
    WellNumbered(d) && WindowOf(c, d) && |d.lines| <= MAX_CHUNK_LINES
  }

  ghost predicate PartsOf(c: Chunk, out: seq<Chunk>) {
    forall d :: d in out ==> PartOf(c, d)
  }

  /** Full windows of forty lines, but for the last. */
  ghost predicate FullWindows(out: seq<Chunk>, upTo: int) {
    forall k :: 0 <= k < |out| && k < upTo ==> |out[k].lines| == WINDOW_LINES
  }

  /** The k-th window of an oversized chunk: lines 40 k up to 40 k + 40, or to its end. */
  ghost predicate IsWindow(c: Chunk, d: Chunk, k: nat) {
    && 40 * k < |c.lines| && WindowAt(c, d, 40 * k)
    && |d.lines| == if 40 * k + 40 <= |c.lines| then 40 else |c.lines| - 40 * k
  }

  ghost predicate AllWindows(c: Chunk, out: seq<Chunk>) {
    forall k :: 0 <= k < |out| ==> IsWindow(c, out[k], k)
  }

  function Cut(c: Chunk, off: nat, size: nat): Chunk
    requires 0 < size && off + size <= |c.lines|
  {
    var nums := seq<nat>(size, k requires 0 <= k < size => NumAt(c, off + k));
    Chunk(nums[0], nums[size - 1], c.heading, c.lines[off..off + size], nums)
  }

  lemma CutIsPart(c: Chunk, off: nat, size: nat)
    requires 0 < size <= MAX_CHUNK_LINES && off + size <= |c.lines|
    ensures PartOf(c, Cut(c, off, size)) && WindowAt(c, Cut(c, off, size), off)
    ensures EndsAt(c, Cut(c, off, size), off + size)
  {
    assert WindowAt(c, Cut(c, off, size), off);
  }

  lemma CutExtends(c: Chunk, off: nat, size: nat, out: seq<Chunk>)
    requires 0 < size <= MAX_CHUNK_LINES && off + size <= |c.lines|
    requires AllPairs(out) == Pairs(c)[..off]
    ensures AllPairs(out + [Cut(c, off, size)]) == Pairs(c)[..off + size]
  {
    var d := Cut(c, off, size);
    CutIsPart(c, off, size);
    WindowExtends(c, d, off);
    assert (out + [d])[..|out|] == out;
  }

  /** `_windows`: an oversized chunk in windows of forty lines that keep their numbers. */
  method Windows(c: Chunk) returns (out: seq<Chunk>)
    requires WellNumbered(c)
    ensures if |c.lines| <= 60 then out == [c] else AllWindows(c, out)
    ensures AllPairs(out) == Pairs(c) && PartsOf(c, out) && FullWindows(out, |out| - 1)
    ensures out != [] && WindowAt(c, out[0], 0) && EndsAt(c, out[|out| - 1], |c.lines|)
  {
    hide CutTo, WellNumbered, Pairs, AllPairs, PartsOf, FullWindows, AllWindows, WindowAt, EndsAt, Cut;
    if |c.lines| <= MAX_CHUNK_LINES {
      WholeChunk(c);
      return [c];
    }
    CutStep(c, 0, []);
    assert [] + [Cut(c, 0, WINDOW_LINES)] == [Cut(c, 0, WINDOW_LINES)];
    out := [Cut(c, 0, WINDOW_LINES)];
    var off := WINDOW_LINES;
    while off < |c.lines|
      invariant off <= |c.lines| && CutTo(c, off, out)
    {
      var size := if off + WINDOW_LINES <= |c.lines| then WINDOW_LINES else |c.lines| - off;
      CutStep(c, off, out);
      out := out + [Cut(c, off, size)];
      off := off + size;
    }
    CutAll(c, out);
  }

  /** What is cut so far: whole windows up to off. */
  ghost predicate CutTo(c: Chunk, off: nat, out: seq<Chunk>) {
    && 0 < off <= |c.lines| && AllPairs(out) == Pairs(c)[..off]
    && PartsOf(c, out) && FullWindows(out, if off < |c.lines| then |out| else |out| - 1)
    && AllWindows(c, out) && (off < |c.lines| ==> off == 40 * |out|)
    && out != [] && WindowAt(c, out[0], 0) && EndsAt(c, out[|out| - 1], off)
  }

  function WindowSize(c: Chunk, off: nat): nat {
    if off + WINDOW_LINES <= |c.lines| then WINDOW_LINES else if off < |c.lines| then |c.lines| - off else 0
  }

  lemma CutStep(c: Chunk, off: nat, out: seq<Chunk>)
    requires off < |c.lines| && (CutTo(c, off, out) || (off == 0 && out == []))
    ensures WindowSize(c, off) > 0
    ensures CutTo(c, off + WindowSize(c, off), out + [Cut(c, off, WindowSize(c, off))])
  {
    hide PartOf, EndsAt, WindowAt, NumAt, Pairs, AllPairs;
    var size := WindowSize(c, off);
    CutIsPart(c, off, size);
    NoPairs(c);
    CutExtends(c, off, size, out);
    WindowCut(c, |out|);
  }

  lemma WindowCut(c: Chunk, k: nat)
    requires 40 * k < |c.lines|
    ensures IsWindow(c, Cut(c, 40 * k, WindowSize(c, 40 * k)), k)
  {
    CutIsPart(c, 40 * k, WindowSize(c, 40 * k));
  }

  lemma WholeChunk(c: Chunk)
    requires WellNumbered(c) && |c.lines| <= MAX_CHUNK_LINES
    ensures AllPairs([c]) == Pairs(c) && PartsOf(c, [c]) && FullWindows([c], 0)
    ensures WindowAt(c, c, 0) && EndsAt(c, c, |c.lines|)
  {
    hide WindowAt, EndsAt, Pairs, AllPairs, WellNumbered, PartOf;
    WholeWindow(c);
    AllPairsMore([], c);
    assert [] + [c] == [c];
  }

  lemma WholeWindow(c: Chunk)
    requires WellNumbered(c)
    ensures WindowAt(c, c, 0) && EndsAt(c, c, |c.lines|)
    ensures |c.lines| <= MAX_CHUNK_LINES ==> PartOf(c, c)
  {
    assert c.lines[0..|c.lines|] == c.lines;
    assert WindowAt(c, c, 0);
  }

  lemma CutAll(c: Chunk, out: seq<Chunk>)
    requires WellNumbered(c) && CutTo(c, |c.lines|, out)
    ensures AllPairs(out) == Pairs(c) && PartsOf(c, out) && FullWindows(out, |out| - 1) && AllWindows(c, out)
    ensures out != [] && WindowAt(c, out[0], 0) && EndsAt(c, out[|out| - 1], |c.lines|)
  {
    NoPairs(c);
  }

  lemma NoPairs(c: Chunk)
    ensures AllPairs([]) == Pairs(c)[..0] && |Pairs(c)| == |c.lines|
    ensures Pairs(c)[..|c.lines|] == Pairs(c)
  {
  }

  /** A line appended to a chunk. */
  function Grown(c: Chunk, num: nat, raw: string): Chunk {
    c.(lines := c.lines + [raw], nums := c.nums + [num], end := num)
  }

  lemma GrownPairs(c: Chunk, num: nat, raw: string)
    requires WellNumbered(c) && |c.nums| == |c.lines|
    ensures Pairs(Grown(c, num, raw)) == Pairs(c) + [(num, raw)]
    ensures WellNumbered(Grown(c, num, raw))
  {
  }

  function CurrentPairs(cur: Option<Chunk>): seq<(nat, string)> {
    if cur.Some? then Pairs(cur.value) else []
  }
}
