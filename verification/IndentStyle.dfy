/** The chunker for indentation-style configs (rag.py): a top-level line with the indented lines
    below it is a stanza; single top-level lines that share a first word are collected in a loose
    run, which has to be flushed before the next stanza to keep the lines in order. */
module IndentStyle {
  import opened ChunkWindows
  import opened Options
  import opened Text

  predicate Skipped(raw: string) {
    Strip(raw) in ["", "!", "end", "exit"]
  }

  predicate Indented(raw: string) {
    raw != [] && (raw[0] == ' ' || raw[0] == '\t')
  }

  predicate Comment(raw: string) {
    var s := Strip(raw);
    ("!" <= s || "#" <= s) && !("#config" <= s)
  }

  /** A line that opens a stanza. */
  predicate Top(raw: string) {
    !Skipped(raw) && !Indented(raw) && !Comment(raw)
  }

  predicate Body(raw: string) {
    !Skipped(raw) && Indented(raw)
  }

  predicate Opened(lines: seq<string>, n: nat)
    requires n <= |lines|
  {
    n > 0 && (Top(lines[n - 1]) || Opened(lines, n - 1))
  }

  /** What must be kept: stanza lines and the indented lines below one, with their 1-based numbers. */
  function Kept(lines: seq<string>, n: nat): seq<(nat, string)>
    requires n <= |lines|
  {
    if n == 0 then []
    else
      var raw := lines[n - 1];
      Kept(lines, n - 1) + if Top(raw) || (Body(raw) && Opened(lines, n - 1)) then [(n, raw)] else []
  }

  /** One top-level line and the indented lines below it. */
  ghost predicate Stanza(c: Chunk) {
    && WellNumbered(c) && |c.nums| == |c.lines|
    && Top(c.lines[0]) && c.heading == Strip(c.lines[0])
    && forall k :: 1 <= k < |c.lines| ==> Indented(c.lines[k])
  }

  ghost predicate Flat(c: Chunk) {
    forall k :: 0 <= k < |c.lines| ==> Top(c.lines[k])
  }

  /** Lines without a body, one after the other, that begin with the same word. */
  ghost predicate LooseRun(c: Chunk) {
    && WellNumbered(c) && |c.nums| == |c.lines| && Flat(c)
    && forall k :: 0 <= k < |c.lines| ==> FirstWord(Strip(c.lines[k])) == c.heading
  }

  ghost predicate Block(c: Chunk) {
    LooseRun(c) || (Stanza(c) && |c.lines| > 1)
  }

  /** A chunk is a window of a stanza with a body or of a loose run. */
  ghost predicate IndentChunk(d: Chunk) {
    WellNumbered(d) && |d.lines| <= MAX_CHUNK_LINES && exists c :: Block(c) && WindowOf(c, d)
  }

  /** Neighbours are cut for a reason: a body is only parted from its head line, and a loose run
      only from its continuation, by a full window. */
  ghost predicate CutWell(a: Chunk, b: Chunk) {
    && b.lines != []
    && (Indented(b.lines[0]) ==> |a.lines| == WINDOW_LINES && a.heading == b.heading)
    && (Flat(a) && Flat(b) && a.heading == b.heading ==> |a.lines| == WINDOW_LINES)
  }

  ghost predicate CutWellAt(out: seq<Chunk>, k: int) {
    0 <= k < |out| - 1 ==> CutWell(out[k], out[k + 1])
  }

  ghost predicate Blocks(out: seq<Chunk>) {
    && (forall d :: d in out ==> IndentChunk(d))
    && forall k :: CutWellAt(out, k)
  }

  lemma BlocksJoin(a: seq<Chunk>, b: seq<Chunk>)
    requires Blocks(a) && Blocks(b)
    requires a != [] && b != [] ==> CutWell(a[|a| - 1], b[0])
    ensures Blocks(a + b)
  {
    forall k ensures CutWellAt(a + b, k) {
      assert CutWellAt(a, k) && CutWellAt(b, k - |a|);
    }
  }

  lemma WindowsAreBlocks(c: Chunk, parts: seq<Chunk>)
    requires Block(c)
    requires parts != [] && PartsOf(c, parts) && FullWindows(parts, |parts| - 1)
    requires WindowAt(c, parts[0], 0) && EndsAt(c, parts[|parts| - 1], |c.lines|)
    ensures Blocks(parts)
    ensures parts[0].heading == c.heading == parts[|parts| - 1].heading
    ensures parts[0].lines != [] && parts[0].lines[0] == c.lines[0]
    ensures !LooseRun(c) ==> !Flat(parts[|parts| - 1])
  {
    forall d | d in parts ensures IndentChunk(d) {
      assert PartOf(c, d);
    }
    WindowsCutWell(c, parts);
    assert parts[0] in parts && PartOf(c, parts[0]);
    var last := parts[|parts| - 1];
    assert last.lines[|last.lines| - 1] == c.lines[|c.lines| - 1];
    if !LooseRun(c) {
      assert Indented(c.lines[|c.lines| - 1]);
      assert !Top(last.lines[|last.lines| - 1]);
    }
  }

  lemma WindowsCutWell(c: Chunk, parts: seq<Chunk>)
    requires PartsOf(c, parts) && FullWindows(parts, |parts| - 1)
    ensures forall k :: CutWellAt(parts, k)
  {
    hide Flat, WindowAt;
    forall k ensures CutWellAt(parts, k) {
      if 0 <= k < |parts| - 1 {
        assert parts[k] in parts && parts[k + 1] in parts;
        assert PartOf(c, parts[k]) && PartOf(c, parts[k + 1]);
        WindowHeading(c, parts[k]);
        WindowHeading(c, parts[k + 1]);
      }
    }
  }

  lemma WindowHeading(c: Chunk, d: Chunk)
    requires WindowOf(c, d)
    ensures d.heading == c.heading
  {
  }

  ghost predicate Follows(out: seq<Chunk>, c: Chunk) {
    out != [] ==> CutWell(out[|out| - 1], c)
  }

  method FlushBlock(out0: seq<Chunk>, c: Chunk) returns (out: seq<Chunk>)
    requires Block(c) && Blocks(out0) && Follows(out0, c)
    ensures Blocks(out) && AllPairs(out) == AllPairs(out0) + Pairs(c)
    ensures out != [] && out[|out| - 1].heading == c.heading
    ensures !LooseRun(c) ==> !Flat(out[|out| - 1])
  {
    var parts := Windows(c);
    WindowsAreBlocks(c, parts);
    AllPairsJoin(out0, parts);
    FirstWindowFollows(out0, c, parts[0]);
    BlocksJoin(out0, parts);
    out := out0 + parts;
  }

  lemma FirstWindowFollows(out: seq<Chunk>, c: Chunk, first: Chunk)
    requires Block(c) && Follows(out, c) && WindowAt(c, first, 0) && first.lines != []
    requires |first.lines| == |c.lines| || |first.lines| == WINDOW_LINES
    ensures Follows(out, first)
  {
    assert first.lines[0] == c.lines[0];
    if Flat(first) && !Flat(c) {
      assert |first.lines| > 1 && first.lines[1] == c.lines[1];
    }
  }

  /** The last emitted chunk and the pending loose run. */
  ghost predicate Pending(out: seq<Chunk>, loose: Option<Chunk>) {
    match loose
    case None => out != [] ==> !Flat(out[|out| - 1])
    case Some(l) => LooseRun(l) && Follows(out, l)
  }

  /** `flush_loose` */
  method FlushLoose(out0: seq<Chunk>, loose: Option<Chunk>) returns (out: seq<Chunk>)
    requires Blocks(out0) && Pending(out0, loose)
    ensures Blocks(out) && AllPairs(out) == AllPairs(out0) + CurrentPairs(loose)
    ensures out != [] ==> !Flat(out[|out| - 1]) || (loose.Some? && out[|out| - 1].heading == loose.value.heading)
  {
    out := out0;
    if loose.Some? {
      out := FlushBlock(out0, loose.value);
    }
  }

  lemma StanzaHasHead(c: Chunk)
    requires Stanza(c)
    ensures c.lines != []
  {
  }

  lemma StanzaFollows(out: seq<Chunk>, c: Chunk)
    requires Stanza(c) && |c.lines| > 1
    ensures Block(c) && Follows(out, c) && !LooseRun(c)
  {
    assert Indented(c.lines[1]);
  }

  lemma LooseFollows(out: seq<Chunk>, c: Chunk)
    requires LooseRun(c)
    requires out != [] ==> !Flat(out[|out| - 1]) || out[|out| - 1].heading != c.heading
    ensures Pending(out, Some(c))
  {
    assert Top(c.lines[0]);
  }

  lemma LooseStarts(out: seq<Chunk>, c: Chunk)
    requires Stanza(c) && |c.lines| == 1
    requires out != [] ==> !Flat(out[|out| - 1]) || out[|out| - 1].heading != FirstWord(c.heading)
    ensures var l := Chunk(c.start, c.end, FirstWord(c.heading), c.lines, c.nums);
            Pending(out, Some(l)) && Pairs(l) == Pairs(c)
  {
    LooseFollows(out, Chunk(c.start, c.end, FirstWord(c.heading), c.lines, c.nums));
  }

  lemma LooseGrows(out: seq<Chunk>, l: Chunk, c: Chunk)
    requires Pending(out, Some(l)) && Stanza(c) && |c.lines| == 1 && FirstWord(c.heading) == l.heading
    ensures Pending(out, Some(Grown(l, c.end, c.lines[0])))
    ensures Pairs(Grown(l, c.end, c.lines[0])) == Pairs(l) + Pairs(c)
  {
    var g := Grown(l, c.end, c.lines[0]);
    GrownPairs(l, c.end, c.lines[0]);
    assert Pairs(c) == [(c.end, c.lines[0])];
    assert LooseRun(g);
    assert g.lines[0] == l.lines[0];
  }

  /** What happens to a stanza once the next one starts, or the input ends. */
  method Close(out0: seq<Chunk>, loose0: Option<Chunk>, c: Chunk) returns (out: seq<Chunk>, loose: Option<Chunk>)
    requires Blocks(out0) && Pending(out0, loose0) && Stanza(c)
    ensures Blocks(out) && Pending(out, loose)
    ensures AllPairs(out) + CurrentPairs(loose) == AllPairs(out0) + CurrentPairs(loose0) + Pairs(c)
  {
    hide Blocks, AllPairs, Pairs, Stanza, LooseRun, FirstWord;
    StanzaHasHead(c);
    if |c.lines| > 1 {
      out := FlushLoose(out0, loose0);
      StanzaFollows(out, c);
      out := FlushBlock(out, c);
      loose := None;
    } else {
      var first := FirstWord(c.heading);
      if loose0.Some? && loose0.value.heading == first {
        out := out0;
        loose := Some(Grown(loose0.value, c.end, c.lines[0]));
        LooseGrows(out, loose0.value, c);
      } else {
        out := FlushLoose(out0, loose0);
        loose := Some(Chunk(c.start, c.end, first, c.lines, c.nums));
        LooseStarts(out, c);
      }
    }
  }

  ghost predicate Scanned(lines: seq<string>, n: nat, out: seq<Chunk>, loose: Option<Chunk>, cur: Option<Chunk>)
    requires n <= |lines|
  {
    && Blocks(out) && Pending(out, loose) && (cur.Some? <==> Opened(lines, n)) && (cur.Some? ==> Stanza(cur.value))
    && AllPairs(out) + CurrentPairs(loose) + CurrentPairs(cur) == Kept(lines, n)
  }

  lemma BodyGrows(c: Chunk, num: nat, raw: string)
    requires Stanza(c) && Body(raw)
    ensures Stanza(Grown(c, num, raw)) && Pairs(Grown(c, num, raw)) == Pairs(c) + [(num, raw)]
  {
    GrownPairs(c, num, raw);
    assert Grown(c, num, raw).lines[0] == c.lines[0];
  }

  lemma StanzaStarts(num: nat, raw: string)
    requires Top(raw)
    ensures Stanza(Chunk(num, num, Strip(raw), [raw], [num]))
    ensures Pairs(Chunk(num, num, Strip(raw), [raw], [num])) == [(num, raw)]
  {
  }

  lemma NothingScanned()
    ensures Blocks([]) && Pending([], None) && AllPairs([]) == []
  {
  }

  /** `_indent_chunks` */
  method IndentChunks(lines: seq<string>) returns (out: seq<Chunk>)
    ensures AllPairs(out) == Kept(lines, |lines|)
    ensures Blocks(out)
  {
    out := [];
    var cur: Option<Chunk> := None;
    var loose: Option<Chunk> := None;
    NothingScanned();
    assert Scanned(lines, 0, out, loose, cur);
    hide *;
    for i := 0 to |lines|
      invariant Scanned(lines, i, out, loose, cur)
    {
      var raw := lines[i];
      PassedOver(lines, i, out, loose, cur);
      if Skipped(raw) {
        continue;
      }
      if Indented(raw) {
        if cur.Some? {
          BodyScanned(lines, i, out, loose, cur.value);
          cur := Some(Grown(cur.value, i + 1, raw));
        }
        continue;
      }
      if Comment(raw) {
        continue;
      }
      out, loose := CloseCurrent(lines, i, out, loose, cur);
      TopScanned(lines, i, out, loose);
      cur := Some(Chunk(i + 1, i + 1, Strip(raw), [raw], [i + 1]));
    }
    out, loose := CloseCurrent(lines, |lines|, out, loose, cur);
    out := LastFlush(lines, out, loose);
  }

  method LastFlush(lines: seq<string>, out0: seq<Chunk>, loose: Option<Chunk>) returns (out: seq<Chunk>)
    requires Closed(lines, |lines|, out0, loose)
    ensures AllPairs(out) == Kept(lines, |lines|) && Blocks(out)
  {
    out := FlushLoose(out0, loose);
  }

  /** No stanza is pending. */
  ghost predicate Closed(lines: seq<string>, n: nat, out: seq<Chunk>, loose: Option<Chunk>)
    requires n <= |lines|
  {
    Blocks(out) && Pending(out, loose) && AllPairs(out) + CurrentPairs(loose) == Kept(lines, n)
  }

  method CloseCurrent(lines: seq<string>, n: nat, out0: seq<Chunk>, loose0: Option<Chunk>, cur: Option<Chunk>)
    returns (out: seq<Chunk>, loose: Option<Chunk>)
    requires n <= |lines| && Scanned(lines, n, out0, loose0, cur)
    ensures Closed(lines, n, out, loose)
  {
    out, loose := out0, loose0;
    if cur.Some? {
      out, loose := Close(out0, loose0, cur.value);
    }
  }

  /** Lines that leave everything as it is. */
  lemma PassedOver(lines: seq<string>, i: nat, out: seq<Chunk>, loose: Option<Chunk>, cur: Option<Chunk>)
    requires i < |lines| && Scanned(lines, i, out, loose, cur)
    ensures var raw := lines[i];
            Skipped(raw) || (Indented(raw) && cur.None?) || (!Indented(raw) && Comment(raw)) ==>
              Scanned(lines, i + 1, out, loose, cur)
  {
    hide Blocks, Pending, AllPairs, CurrentPairs, Stanza, Skipped, Indented, Comment;
  }

  lemma BodyScanned(lines: seq<string>, i: nat, out: seq<Chunk>, loose: Option<Chunk>, c: Chunk)
    requires i < |lines| && Scanned(lines, i, out, loose, Some(c)) && Body(lines[i])
    ensures Scanned(lines, i + 1, out, loose, Some(Grown(c, i + 1, lines[i])))
  {
    hide Blocks, Pending, AllPairs, Pairs, Stanza, Skipped, Indented, Comment, Grown;
    BodyGrows(c, i + 1, lines[i]);
    var before := AllPairs(out) + CurrentPairs(loose);
    assert (before + Pairs(c)) + [(i + 1, lines[i])] == before + (Pairs(c) + [(i + 1, lines[i])]);
  }

  lemma TopScanned(lines: seq<string>, i: nat, out: seq<Chunk>, loose: Option<Chunk>)
    requires i < |lines| && Closed(lines, i, out, loose) && Top(lines[i])
    ensures Scanned(lines, i + 1, out, loose, Some(Chunk(i + 1, i + 1, Strip(lines[i]), [lines[i]], [i + 1])))
  {
    hide Blocks, Pending, AllPairs, Pairs, Stanza, Skipped, Indented, Comment;
    StanzaStarts(i + 1, lines[i]);
  }
}
