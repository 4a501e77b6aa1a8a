/** The chunker for brace-style configs (rag.py): parse, cut, window, sort. */
module BraceStyle {
  import opened BraceSpans
  import opened BraceTree
  import opened ChunkWindows
  import opened Ordering
  import opened StanzaChunks

  ghost predicate InFile(lines: seq<string>, p: Piece) {
    1 <= p.start <= p.end <= |lines|
  }

  function PieceChunk(lines: seq<string>, p: Piece): Chunk
    requires InFile(lines, p)
  {
    Chunk(p.start, p.end, p.heading, lines[p.start - 1..p.end], [])
  }

  /** A chunk carries exactly the source lines of its range. */
  ghost predicate Exact(lines: seq<string>, c: Chunk) {
    1 <= c.start <= c.end <= |lines| && c.lines == lines[c.start - 1..c.end]
  }

  lemma PartIsExact(lines: seq<string>, p: Piece, c: Chunk)
    requires InFile(lines, p) && PartOf(PieceChunk(lines, p), c)
    ensures Exact(lines, c) && p.start <= c.start && c.end <= p.end && c.heading == p.heading
  {
    var whole := PieceChunk(lines, p);
    var off: nat :| WindowAt(whole, c, off);
    assert NumAt(c, 0) == NumAt(whole, off + 0);
    assert NumAt(c, |c.lines| - 1) == NumAt(whole, off + (|c.lines| - 1));
    SliceOfSlice(lines, p.start - 1, p.end, off, |c.lines|);
  }

  lemma SliceOfSlice<T>(s: seq<T>, lo: nat, hi: nat, off: nat, n: nat)
    requires lo <= hi <= |s| && off + n <= hi - lo
    ensures s[lo..hi][off..off + n] == s[lo + off..lo + off + n]
  {
    var a, b := s[lo..hi][off..off + n], s[lo + off..lo + off + n];
    forall i | 0 <= i < n ensures a[i] == b[i] {
      assert a[i] == s[lo..hi][off + i] == s[lo + (off + i)];
    }
  }

  // --------------------------------------------------------- windows tile a piece

  ghost predicate Ascends(pairs: seq<(nat, string)>) {
    forall i, j :: 0 <= i < j < |pairs| ==> pairs[i].0 < pairs[j].0
  }

  ghost predicate Before(c: Chunk, d: Chunk) {
    c.end < d.start
  }

  ghost predicate InSequence(chunks: seq<Chunk>) {
    forall a, b :: 0 <= a < b < |chunks| ==> Before(chunks[a], chunks[b])
  }

  lemma {:induction false} PairIsIn(chunks: seq<Chunk>, c: Chunk, k: nat)
    requires c in chunks && k < |c.lines|
    ensures (NumAt(c, k), c.lines[k]) in AllPairs(chunks)
  {
    var init, last := chunks[..|chunks| - 1], chunks[|chunks| - 1];
    assert chunks == init + [last];
    if c == last {
      assert Pairs(last)[k] == (NumAt(c, k), c.lines[k]);
    } else {
      PairIsIn(init, c, k);
    }
  }

  lemma {:induction false} PairIsOf(chunks: seq<Chunk>, x: (nat, string)) returns (c: Chunk, k: nat)
    requires x in AllPairs(chunks)
    ensures c in chunks && k < |c.lines| && x.0 == NumAt(c, k)
  {
    var init, last := chunks[..|chunks| - 1], chunks[|chunks| - 1];
    if x in Pairs(last) {
      k :| 0 <= k < |Pairs(last)| && Pairs(last)[k] == x;
      c := last;
    } else {
      c, k := PairIsOf(init, x);
    }
  }

  lemma {:induction false} AscendingChunks(chunks: seq<Chunk>)
    requires Ascends(AllPairs(chunks)) && forall c :: c in chunks ==> WellNumbered(c)
    ensures InSequence(chunks)
  {
    if chunks != [] {
      var init, last := chunks[..|chunks| - 1], chunks[|chunks| - 1];
      var pairs := AllPairs(chunks);
      assert forall i :: 0 <= i < |AllPairs(init)| ==> pairs[i] == AllPairs(init)[i];
      AscendingChunks(init);
      assert last in chunks;
      forall a | 0 <= a < |init| ensures Before(init[a], last) {
        var c := init[a];
        assert c in chunks;
        PairIsIn(init, c, |c.lines| - 1);
        var i :| 0 <= i < |AllPairs(init)| && AllPairs(init)[i] == (NumAt(c, |c.lines| - 1), c.lines[|c.lines| - 1]);
        assert pairs[|AllPairs(init)|] == Pairs(last)[0];
        assert pairs[i].0 < pairs[|AllPairs(init)|].0;
      }
      InSequenceMore(init, last);
      assert chunks == init + [last];
    }
  }

  lemma InSequenceMore(chunks: seq<Chunk>, c: Chunk)
    requires InSequence(chunks) && forall a :: 0 <= a < |chunks| ==> Before(chunks[a], c)
    ensures InSequence(chunks + [c])
  {
  }

  ghost predicate Covers(chunks: seq<Chunk>, j: nat) {
    exists c :: c in chunks && c.start <= j <= c.end
  }

  lemma WindowsTile(lines: seq<string>, p: Piece, parts: seq<Chunk>)
    requires InFile(lines, p)
    requires PartsOf(PieceChunk(lines, p), parts) && AllPairs(parts) == Pairs(PieceChunk(lines, p))
    ensures InSequence(parts)
    ensures forall j: nat :: p.start <= j <= p.end ==> Covers(parts, j)
  {
    var whole := PieceChunk(lines, p);
    assert forall c :: c in parts ==> PartOf(whole, c);
    AscendingChunks(parts);
    forall j: nat | p.start <= j <= p.end ensures Covers(parts, j) {
      var x := Pairs(whole)[j - p.start];
      assert x in AllPairs(parts);
      var c, k := PairIsOf(parts, x);
      assert PartOf(whole, c);
      PartIsExact(lines, p, c);
      WindowNumbers(lines, p, c, k);
    }
  }

  lemma WindowNumbers(lines: seq<string>, p: Piece, c: Chunk, k: nat)
    requires InFile(lines, p) && PartOf(PieceChunk(lines, p), c) && k < |c.lines|
    ensures NumAt(c, k) == c.start + k && c.start + k <= c.end
  {
    var whole := PieceChunk(lines, p);
    var off: nat :| WindowAt(whole, c, off);
    assert NumAt(c, 0) == NumAt(whole, off + 0);
    assert NumAt(c, k) == NumAt(whole, off + k);
    PartIsExact(lines, p, c);
  }

  // ------------------------------------------------------------ all the pieces

  ghost predicate TopPiece(tops: seq<Node>, p: Piece, k: nat) {
    k < |tops| && Emitted(tops[k], tops[k].head, p)
  }

  ghost predicate FromTops(tops: seq<Node>, p: Piece, m: nat) {
    exists k: nat :: k < m && TopPiece(tops, p, k)
  }

  ghost predicate TopsFit(lines: seq<string>, tops: seq<Node>) {
    && InOrder(tops)
    && forall k :: 0 <= k < |tops| ==> Fits(tops[k]) && 0 < tops[k].start && tops[k].end <= |lines|
  }

  ghost predicate PiecesSoFar(tops: seq<Node>, pieces: seq<Piece>, m: nat) {
    && Apart(pieces)
    && forall p :: p in pieces <==> FromTops(tops, p, m)
  }

  lemma FromNextTop(tops: seq<Node>, p: Piece, m: nat)
    requires m < |tops|
    ensures FromTops(tops, p, m + 1) <==> FromTops(tops, p, m) || TopPiece(tops, p, m)
  {
    if FromTops(tops, p, m) {
      var k: nat :| k < m && TopPiece(tops, p, k);
      assert k < m + 1;
    }
  }

  lemma NextTopApart(lines: seq<string>, tops: seq<Node>, pieces: seq<Piece>, m: nat, more: seq<Piece>)
    requires TopsFit(lines, tops) && m < |tops| && PiecesSoFar(tops, pieces, m)
    requires Apart(more) && forall p :: p in more <==> Emitted(tops[m], tops[m].head, p)
    ensures PiecesSoFar(tops, pieces + more, m + 1)
  {
    forall p, q | p in pieces && q in more ensures Disjoint(p, q) {
      assert FromTops(tops, p, m);
      var k: nat :| k < m && TopPiece(tops, p, k);
      EmittedInside(tops[k], tops[k].head, p);
      EmittedInside(tops[m], tops[m].head, q);
      assert tops[k].end < tops[m].start;
    }
    ApartJoin(pieces, more);
    forall p ensures p in pieces + more <==> FromTops(tops, p, m + 1) {
      FromNextTop(tops, p, m);
      assert p in pieces + more <==> p in pieces || p in more;
      assert p in more <==> TopPiece(tops, p, m);
    }
  }

  method EmitAll(lines: seq<string>, tops: seq<Node>) returns (pieces: seq<Piece>)
    requires TopsFit(lines, tops)
    ensures PiecesSoFar(tops, pieces, |tops|)
  {
    pieces := [];
    for m := 0 to |tops|
      invariant PiecesSoFar(tops, pieces, m)
    {
      var more := Emit(tops[m], tops[m].head);
      NextTopApart(lines, tops, pieces, m, more);
      pieces := pieces + more;
    }
  }

  lemma TopPieceInFile(lines: seq<string>, tops: seq<Node>, p: Piece, m: nat)
    requires TopsFit(lines, tops) && FromTops(tops, p, m)
    ensures InFile(lines, p)
  {
    var k: nat :| k < m && TopPiece(tops, p, k);
    EmittedInside(tops[k], tops[k].head, p);
  }

  // ----------------------------------------------------------------- windowing

  ghost predicate ChunksDisjoint(c: Chunk, d: Chunk) {
    Before(c, d) || Before(d, c)
  }

  ghost predicate ChunksApart(out: seq<Chunk>) {
    forall a, b :: 0 <= a < b < |out| ==> ChunksDisjoint(out[a], out[b])
  }

  ghost predicate AllInFile(lines: seq<string>, pieces: seq<Piece>) {
    forall p :: p in pieces ==> InFile(lines, p)
  }

  /** A piece of up to sixty lines whole, or a stretch of forty lines of a longer one. */
  ghost predicate CutOut(p: Piece, c: Chunk) {
    && c.heading == p.heading
    && if p.end - p.start < 60 then c.start == p.start && c.end == p.end
       else exists k: nat :: c.start == p.start + 40 * k
                             && c.end == if p.start + 40 * k + 39 <= p.end then p.start + 40 * k + 39 else p.end
  }

  /** c is one of the chunks of the piece p. */
  ghost predicate FromPiece(lines: seq<string>, p: Piece, c: Chunk) {
    InFile(lines, p) && PartOf(PieceChunk(lines, p), c) && CutOut(p, c)
  }

  ghost predicate CutFrom(lines: seq<string>, pieces: seq<Piece>, c: Chunk) {
    exists p :: p in pieces && FromPiece(lines, p, c)
  }

  lemma WindowsAreCutOut(lines: seq<string>, p: Piece, parts: seq<Chunk>)
    requires InFile(lines, p) && PartsOf(PieceChunk(lines, p), parts)
    requires var whole := PieceChunk(lines, p);
             if |whole.lines| <= 60 then parts == [whole] else AllWindows(whole, parts)
    ensures forall c :: c in parts ==> FromPiece(lines, p, c)
  {
    var whole := PieceChunk(lines, p);
    forall c | c in parts ensures FromPiece(lines, p, c) {
      assert PartOf(whole, c);
      if |whole.lines| > 60 {
        var k: nat :| k < |parts| && parts[k] == c;
        assert IsWindow(whole, c, k);
        assert NumAt(c, 0) == NumAt(whole, 40 * k + 0);
        assert NumAt(c, |c.lines| - 1) == NumAt(whole, 40 * k + (|c.lines| - 1));
      }
    }
  }

  ghost predicate PieceCovered(out: seq<Chunk>, p: Piece) {
    forall j: nat :: p.start <= j <= p.end ==> Covers(out, j)
  }

  /** out is the pieces cut into windows. */
  ghost predicate CutUp(lines: seq<string>, pieces: seq<Piece>, out: seq<Chunk>) {
    && ChunksApart(out)
    && (forall c :: c in out ==> CutFrom(lines, pieces, c))
    && (forall p :: p in pieces ==> PieceCovered(out, p))
  }

  lemma CoversMore(a: seq<Chunk>, b: seq<Chunk>, p: Piece)
    requires PieceCovered(a, p) || PieceCovered(b, p)
    ensures PieceCovered(a + b, p)
  {
    forall j: nat | p.start <= j <= p.end ensures Covers(a + b, j) {
      if PieceCovered(a, p) {
        assert Covers(a, j);
        var c :| c in a && c.start <= j <= c.end;
        assert c in a + b;
      } else {
        assert Covers(b, j);
        var c :| c in b && c.start <= j <= c.end;
        assert c in a + b;
      }
    }
  }

  lemma ChunksApartJoin(a: seq<Chunk>, b: seq<Chunk>)
    requires ChunksApart(a) && InSequence(b)
    requires forall c, d :: c in a && d in b ==> ChunksDisjoint(c, d)
    ensures ChunksApart(a + b)
  {
    var all := a + b;
    forall i, j | 0 <= i < j < |all| ensures ChunksDisjoint(all[i], all[j]) {
      if i >= |a| { assert Before(b[i - |a|], b[j - |a|]); }
    }
  }

  lemma CutMore(lines: seq<string>, pieces: seq<Piece>, p: Piece, out: seq<Chunk>, parts: seq<Chunk>)
    requires AllInFile(lines, pieces) && InFile(lines, p) && CutUp(lines, pieces, out)
    requires forall q :: q in pieces ==> Disjoint(q, p)
    requires PartsOf(PieceChunk(lines, p), parts) && AllPairs(parts) == Pairs(PieceChunk(lines, p))
    requires forall c :: c in parts ==> FromPiece(lines, p, c)
    ensures CutUp(lines, pieces + [p], out + parts)
  {
    WindowsTile(lines, p, parts);
    forall c, d | c in out && d in parts ensures ChunksDisjoint(c, d) {
      assert CutFrom(lines, pieces, c) && PartOf(PieceChunk(lines, p), d);
      var q :| q in pieces && FromPiece(lines, q, c);
      PartIsExact(lines, q, c);
      PartIsExact(lines, p, d);
    }
    ChunksApartJoin(out, parts);
    forall c | c in out + parts ensures CutFrom(lines, pieces + [p], c) {
      if c in out {
        assert CutFrom(lines, pieces, c);
        var q :| q in pieces && FromPiece(lines, q, c);
        assert q in pieces + [p];
      } else {
        assert c in parts && FromPiece(lines, p, c) && p in pieces + [p];
      }
    }
    forall q | q in pieces + [p] ensures PieceCovered(out + parts, q) {
      CoversMore(out, parts, q);
    }
  }

  method CutPieces(lines: seq<string>, pieces: seq<Piece>) returns (out: seq<Chunk>)
    requires Apart(pieces) && AllInFile(lines, pieces)
    ensures CutUp(lines, pieces, out)
  {
    out := [];
    for m := 0 to |pieces|
      invariant CutUp(lines, pieces[..m], out)
    {
      assert pieces[..m + 1] == pieces[..m] + [pieces[m]];
      var p := pieces[m];
      assert InFile(lines, p);
      var parts := Windows(PieceChunk(lines, p));
      forall q | q in pieces[..m] ensures Disjoint(q, p) {
        var i :| 0 <= i < m && pieces[i] == q;
        assert ApartAt(pieces, i, m);
      }
      WindowsAreCutOut(lines, p, parts);
      CutMore(lines, pieces[..m], p, out, parts);
      out := out + parts;
    }
    assert pieces[..|pieces|] == pieces;
  }

  // ------------------------------------------------------------------- sorting

  predicate StartsFirst(c: Chunk, d: Chunk) {
    c.start <= d.start
  }

  lemma SortedInSequence(lines: seq<string>, pieces: seq<Piece>, out: seq<Chunk>)
    requires CutUp(lines, pieces, out)
    ensures InSequence(StableSort(StartsFirst, out))
    ensures forall c :: c in StableSort(StartsFirst, out) <==> c in out
  {
    var s := StableSort(StartsFirst, out);
    StableSortSorts(StartsFirst, out);
    SameElements(s, out);
    forall c | c in out ensures c.start <= c.end {
      assert CutFrom(lines, pieces, c);
      var p :| p in pieces && FromPiece(lines, p, c);
      PartIsExact(lines, p, c);
    }
    ApartIsDistinct(out);
    DistinctByMultiset(out, s);
    forall i, j | 0 <= i < j < |s| ensures Before(s[i], s[j]) {
      assert s[i] in out && s[j] in out && StartsFirst(s[i], s[j]);
      DistinctAreApart(out, s[i], s[j]);
    }
  }

  lemma ApartIsDistinct(out: seq<Chunk>)
    requires ChunksApart(out) && forall c :: c in out ==> c.start <= c.end
    ensures Distinct(out)
  {
    forall i, j | 0 <= i < j < |out| ensures out[i] != out[j] {
      assert out[i] in out && ChunksDisjoint(out[i], out[j]);
    }
  }

  lemma DistinctAreApart(out: seq<Chunk>, c: Chunk, d: Chunk)
    requires ChunksApart(out) && c in out && d in out && c != d
    ensures ChunksDisjoint(c, d)
  {
    var a :| 0 <= a < |out| && out[a] == c;
    var b :| 0 <= b < |out| && out[b] == d;
    assert if a < b then ChunksDisjoint(out[a], out[b]) else ChunksDisjoint(out[b], out[a]);
  }

  /** A chunk is a window of a piece of a top-level stanza. */
  ghost predicate StanzaChunk(lines: seq<string>, c: Chunk) {
    exists k: nat, p :: TopPiece(Stanzas(lines), p, k) && FromPiece(lines, p, c)
  }

  /** A chunk of a piece that has its place in a top-level stanza. */
  ghost predicate PlacedChunk(lines: seq<string>, c: Chunk) {
    exists ms, p :: PieceAt(ms, p) && ms[0] in Stanzas(lines) && FromPiece(lines, p, c)
  }

  lemma StanzaChunkIsPlaced(lines: seq<string>, c: Chunk)
    requires StanzaChunk(lines, c)
    ensures PlacedChunk(lines, c)
  {
    hide IsRun, FromPiece, Stanzas;
    var k: nat, p :| TopPiece(Stanzas(lines), p, k) && FromPiece(lines, p, c);
    var top := Stanzas(lines)[k];
    EmittedIff(top, p);
    var ms :| PieceAt(ms, p) && ms[0] == top;
  }

  /** On the way down a stanza lies one level deeper at each step. */
  lemma {:induction false} PlacesSpan(lines: seq<string>, ms: seq<Node>, i: nat)
    requires Nested(ms) && ms[0] in Stanzas(lines) && i < |ms|
    ensures Spans(lines, ms[i], i)
  {
    if i == 0 {
      StanzasSpan(lines);
      var tops := Stanzas(lines);
      var k: nat :| k < |tops| && tops[k] == ms[0];
      assert KidSpans(lines, tops, k, 0, |lines|, 0);
    } else {
      PlacesSpan(lines, ms, i - 1);
      var n := ms[i - 1];
      assert ms[i - 1 + 1] in n.kids;
      var k: nat :| k < |n.kids| && n.kids[k] == ms[i];
      assert KidSpans(lines, n.kids, k, n.start, n.end, i);
    }
  }

  lemma PlacedIsTopPiece(tops: seq<Node>, ms: seq<Node>, p: Piece) returns (k: nat)
    requires PieceAt(ms, p) && ms[0] in tops
    ensures TopPiece(tops, p, k)
  {
    EmittedIff(ms[0], p);
    k :| 0 <= k < |tops| && tops[k] == ms[0];
  }

  /** `_curly_chunks`: ordered, disjoint, short and exact chunks that together carry every
      statement inside a top-level stanza and no statement outside, whether the braces balance or
      not. */
  method CurlyChunks(lines: seq<string>) returns (out: seq<Chunk>)
    ensures InSequence(out)
    ensures forall c :: c in out ==> Exact(lines, c) && |c.lines| <= MAX_CHUNK_LINES && StanzaChunk(lines, c)
    ensures forall j: nat :: Leaf(lines, j) ==> Covers(out, j)
    ensures forall j: nat :: 0 < j <= |lines| && Plain(lines[j - 1]) && Covers(out, j) ==> Leaf(lines, j)
    ensures forall k: nat, p: Piece :: TopPiece(Stanzas(lines), p, k) ==> PieceCovered(out, p)
    ensures forall c :: c in out ==> PlacedChunk(lines, c)
    ensures forall ms, p :: PieceAt(ms, p) && ms[0] in Stanzas(lines) ==> PieceCovered(out, p)
    ensures AreKids(lines, Stanzas(lines), 0, |lines|, 0)
  {
    StanzasSpan(lines);
    var tops := ParseStanzas(lines);
    StanzasFit(lines);
    var pieces := EmitAll(lines, tops);
    forall p | p in pieces ensures InFile(lines, p) {
      TopPieceInFile(lines, tops, p, |tops|);
    }
    var cut := CutPieces(lines, pieces);
    out := StableSort(StartsFirst, cut);
    SortedInSequence(lines, pieces, cut);
    ChunksAreRight(lines, pieces, cut, out);
    forall j: nat | 0 < j <= |lines| && Plain(lines[j - 1]) && Covers(out, j) ensures Leaf(lines, j) {
      CoveredIsInside(lines, out, j);
    }
    forall c | c in out ensures PlacedChunk(lines, c) { StanzaChunkIsPlaced(lines, c); }
    forall ms, p | PieceAt(ms, p) && ms[0] in Stanzas(lines) ensures PieceCovered(out, p) {
      var k := PlacedIsTopPiece(Stanzas(lines), ms, p);
    }
  }

  /** Statements outside every stanza are in no chunk: these are the ones that get lost. */
  lemma CoveredIsInside(lines: seq<string>, out: seq<Chunk>, j: nat)
    requires forall c :: c in out ==> StanzaChunk(lines, c)
    requires 0 < j <= |lines| && Plain(lines[j - 1]) && Covers(out, j)
    ensures Leaf(lines, j)
  {
    var c :| c in out && c.start <= j <= c.end;
    assert StanzaChunk(lines, c);
    var k: nat, p :| TopPiece(Stanzas(lines), p, k) && FromPiece(lines, p, c);
    PartIsExact(lines, p, c);
    StanzasFit(lines);
    EmittedInside(Stanzas(lines)[k], Stanzas(lines)[k].head, p);
    if Depth(lines, j - 1) == 0 {
      OutsideIsBeside(lines, j);
    }
  }

  lemma ChunksAreRight(lines: seq<string>, pieces: seq<Piece>, cut: seq<Chunk>, out: seq<Chunk>)
    requires CutUp(lines, pieces, cut) && PiecesSoFar(Stanzas(lines), pieces, |Stanzas(lines)|)
    requires forall c :: c in out <==> c in cut
    ensures forall c :: c in out ==> Exact(lines, c) && |c.lines| <= MAX_CHUNK_LINES && StanzaChunk(lines, c)
    ensures forall j: nat :: Leaf(lines, j) ==> Covers(out, j)
    ensures forall k: nat, p: Piece :: TopPiece(Stanzas(lines), p, k) ==> PieceCovered(out, p)
  {
    forall c | c in out ensures Exact(lines, c) && |c.lines| <= MAX_CHUNK_LINES && StanzaChunk(lines, c) {
      assert CutFrom(lines, pieces, c);
      var p :| p in pieces && FromPiece(lines, p, c);
      PartIsExact(lines, p, c);
      assert FromTops(Stanzas(lines), p, |Stanzas(lines)|);
    }
    forall k: nat, p: Piece | TopPiece(Stanzas(lines), p, k) ensures PieceCovered(out, p) {
      PieceIsCovered(lines, pieces, cut, out, k, p);
    }
    forall j: nat | Leaf(lines, j) ensures Covers(out, j) {
      StanzasHoldLeaves(lines, j);
      StanzasFit(lines);
      var k :| 0 <= k < |Stanzas(lines)| && Holds(Stanzas(lines)[k], j);
      var p := HeldIsEmitted(Stanzas(lines)[k], Stanzas(lines)[k].head, j);
      assert TopPiece(Stanzas(lines), p, k);
      PieceIsCovered(lines, pieces, cut, out, k, p);
    }
  }

  lemma PieceIsCovered(lines: seq<string>, pieces: seq<Piece>, cut: seq<Chunk>, out: seq<Chunk>, k: nat, p: Piece)
    requires CutUp(lines, pieces, cut) && PiecesSoFar(Stanzas(lines), pieces, |Stanzas(lines)|)
    requires forall c :: c in out <==> c in cut
    requires TopPiece(Stanzas(lines), p, k)
    ensures PieceCovered(out, p)
  {
    assert FromTops(Stanzas(lines), p, |Stanzas(lines)|);
    assert p in pieces;
    forall j: nat | p.start <= j <= p.end ensures Covers(out, j) {
      assert Covers(cut, j);
      var c :| c in cut && c.start <= j <= c.end;
      assert c in out;
    }
  }
}
