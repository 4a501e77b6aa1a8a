/** The bounded template miner of patterns.py: clusters, their group lists and LRU eviction. */
module TemplateMiner {
  import opened LeastRecent
  import opened Options
  import opened Ordering

  type Token = string

  /** A masked line, split at white space and cut to the token limit. */
  type Line = seq<Token>

  const WILD: Token := "<*>"

  /** Token count and first token; masked first tokens share a group. */
  type GroupKey = (nat, Token)

  function KeyOf(line: Line): GroupKey {
    (|line|, if line == [] then "" else if "<" <= line[0] then WILD else line[0])
  }

  datatype Cluster = Cluster(tokens: Line, key: GroupKey, count: nat)

  predicate SameAt(a: Line, b: Line, i: nat)
    requires i < |a| && i < |b|
  {
    a[i] == b[i] || a[i] == WILD || b[i] == WILD
  }

  function Agreeing(a: Line, b: Line): nat
    requires |a| == |b|
  {
    if a == [] then 0
    else Agreeing(a[..|a| - 1], b[..|b| - 1]) + if SameAt(a, b, |a| - 1) then 1 else 0
  }

  /** `_similarity` */
  function Similarity(a: Line, b: Line): (r: real)
    requires |a| == |b|
  {
    if a == [] then 1.0 else Agreeing(a, b) as real / |a| as real
  }

  function Merged(a: Line, b: Line): Line
    requires |a| == |b|
  {
    seq(|a|, i requires 0 <= i < |a| => if a[i] == b[i] then a[i] else WILD)
  }

  // ----------------------------------------------------- clusters against the lines fed

  /** Every line so far, and the cluster each one joined. */
  ghost predicate Fed(home: Log, fed: seq<Line>, nextId: nat) {
    |home| == |fed| && nextId > 0 && forall i :: 0 <= i < |home| ==> 0 < home[i] < nextId
  }

  /** How many lines joined cluster id. */
  function Count(home: Log, id: nat): nat {
    if home == [] then 0 else Count(Init(home), id) + if Last(home) == id then 1 else 0
  }

  ghost predicate JoinedAt(home: Log, fed: seq<Line>, id: nat, tokens: Line, key: GroupKey, i: int)
    requires |home| == |fed|
  {
    0 <= i < |home| && home[i] == id ==> |fed[i]| == |tokens| && KeyOf(fed[i]) == key
  }

  /** All lines of cluster id have x at position p. */
  ghost predicate Agree(home: Log, fed: seq<Line>, id: nat, p: nat, x: Token)
    requires |home| == |fed|
  {
    forall i :: 0 <= i < |home| && home[i] == id ==> p < |fed[i]| && fed[i][p] == x
  }

  /** The template shows what all the lines share at p, and a wildcard when they differ. */
  ghost predicate TokenAt(home: Log, fed: seq<Line>, id: nat, tokens: Line, p: nat)
    requires |home| == |fed| && p < |tokens|
  {
    && (tokens[p] == WILD || Agree(home, fed, id, p, tokens[p]))
    && forall x :: Agree(home, fed, id, p, x) ==> tokens[p] == x
  }

  /** The cluster is the summary of the lines that joined it. */
  ghost predicate Summary(home: Log, fed: seq<Line>, id: nat, c: Cluster)
    requires |home| == |fed|
  {
    && id in home && c.count == Count(home, id) && c.key.0 == |c.tokens|
    && (forall i :: JoinedAt(home, fed, id, c.tokens, c.key, i))
    && (forall p: nat :: p < |c.tokens| ==> TokenAt(home, fed, id, c.tokens, p))
  }

  lemma CountNext(home: Log, id: nat, u: nat)
    ensures Count(home + [u], id) == Count(home, id) + if u == id then 1 else 0
  {
    assert Init(home + [u]) == home;
  }

  lemma {:induction false} CountAbsent(home: Log, id: nat)
    requires id !in home
    ensures Count(home, id) == 0
  {
    if home != [] {
      assert Last(home) in home;
      CountAbsent(Init(home), id);
    }
  }

  lemma AgreeNext(home: Log, fed: seq<Line>, u: nat, line: Line, id: nat, p: nat, x: Token)
    requires |home| == |fed|
    ensures Agree(home + [u], fed + [line], id, p, x) <==>
              Agree(home, fed, id, p, x) && (u == id ==> p < |line| && line[p] == x)
  {
    var h, f := home + [u], fed + [line];
    if Agree(h, f, id, p, x) {
      forall i | 0 <= i < |home| && home[i] == id ensures p < |fed[i]| && fed[i][p] == x {
        assert h[i] == home[i] && f[i] == fed[i];
      }
      assert h[|home|] == u && f[|home|] == line;
    }
  }

  /** A line that joins keeps the summary exact once the template is merged. */
  lemma JoinKeeps(home: Log, fed: seq<Line>, id: nat, c: Cluster, line: Line)
    requires |home| == |fed| && Summary(home, fed, id, c)
    requires KeyOf(line) == c.key && |line| == |c.tokens|
    ensures Summary(home + [id], fed + [line], id, Cluster(Merged(c.tokens, line), c.key, c.count + 1))
  {
    var h, f, tokens := home + [id], fed + [line], Merged(c.tokens, line);
    CountNext(home, id, id);
    forall i ensures JoinedAt(h, f, id, tokens, c.key, i) {
      assert JoinedAt(home, fed, id, c.tokens, c.key, i);
    }
    forall p: nat | p < |tokens| ensures TokenAt(h, f, id, tokens, p) {
      MergedToken(home, fed, id, c.tokens, line, p);
    }
    assert id in h;
  }

  lemma MergedToken(home: Log, fed: seq<Line>, id: nat, tokens: Line, line: Line, p: nat)
    requires |home| == |fed| && |tokens| == |line| && p < |tokens| && TokenAt(home, fed, id, tokens, p)
    ensures TokenAt(home + [id], fed + [line], id, Merged(tokens, line), p)
  {
    forall x { AgreeNext(home, fed, id, line, id, p, x); }
  }

  lemma CreatedSummary(home: Log, fed: seq<Line>, id: nat, line: Line)
    requires |home| == |fed| && id !in home
    ensures Summary(home + [id], fed + [line], id, Cluster(line, KeyOf(line), 1))
  {
    var h, f := home + [id], fed + [line];
    CountNext(home, id, id);
    CountAbsent(home, id);
    forall i ensures JoinedAt(h, f, id, line, KeyOf(line), i) {
      assert 0 <= i < |home| ==> home[i] in home && h[i] == home[i];
    }
    forall p: nat | p < |line| ensures TokenAt(h, f, id, line, p) {
      forall x { AgreeNext(home, fed, id, line, id, p, x); }
      assert Agree(home, fed, id, p, line[p]) by { assert forall i :: 0 <= i < |home| ==> home[i] in home; }
    }
    assert h[|home|] == id;
  }

  lemma OtherKeeps(home: Log, fed: seq<Line>, id: nat, c: Cluster, u: nat, line: Line)
    requires |home| == |fed| && Summary(home, fed, id, c) && u != id
    ensures Summary(home + [u], fed + [line], id, c)
  {
    var h, f := home + [u], fed + [line];
    CountNext(home, id, u);
    forall i ensures JoinedAt(h, f, id, c.tokens, c.key, i) {
      assert JoinedAt(home, fed, id, c.tokens, c.key, i);
    }
    forall p: nat | p < |c.tokens| ensures TokenAt(h, f, id, c.tokens, p) {
      assert TokenAt(home, fed, id, c.tokens, p);
      forall x { AgreeNext(home, fed, u, line, id, p, x); }
    }
  }

  // ------------------------------------------------------------------ cross-indexing

  ghost predicate GroupAt(clusters: map<nat, Cluster>, groups: map<GroupKey, seq<nat>>, k: GroupKey)
    requires k in groups
  {
    Ascending(groups[k]) && forall id :: id in groups[k] <==> id in clusters && clusters[id].key == k
  }

  /** Group lists and clusters index each other exactly. */
  ghost predicate Indexed(clusters: map<nat, Cluster>, groups: map<GroupKey, seq<nat>>) {
    && (forall id :: id in clusters ==> clusters[id].key in groups)
    && (forall k :: k in groups ==> GroupAt(clusters, groups, k))
  }

  /** `setdefault(key, []).append(id)` */
  function Appended(groups: map<GroupKey, seq<nat>>, k: GroupKey, id: nat): map<GroupKey, seq<nat>> {
    groups[k := (if k in groups then groups[k] else []) + [id]]
  }

  lemma AppendIndexed(clusters: map<nat, Cluster>, groups: map<GroupKey, seq<nat>>, id: nat, c: Cluster)
    requires Indexed(clusters, groups) && forall x :: x in clusters ==> x < id
    ensures Indexed(clusters[id := c], Appended(groups, c.key, id))
  {
    var more, lists := clusters[id := c], Appended(groups, c.key, id);
    forall k | k in lists ensures GroupAt(more, lists, k) {
      if k in groups {
        assert GroupAt(clusters, groups, k);
        assert forall i :: 0 <= i < |groups[k]| ==> groups[k][i] in groups[k];
      } else {
        assert lists[k] == [id];
        assert forall x :: x in clusters ==> clusters[x].key in groups;
      }
    }
  }

  /** `ids.remove(id)` */
  function Removed(s: seq<nat>, id: nat): seq<nat> {
    if s == [] then [] else if s[0] == id then s[1..] else [s[0]] + Removed(s[1..], id)
  }

  lemma {:induction false} RemovedFrom(s: seq<nat>, id: nat)
    requires Ascending(s)
    ensures Ascending(Removed(s, id))
    ensures forall x :: x in Removed(s, id) <==> x in s && x != id
  {
    if s != [] {
      assert s == [s[0]] + s[1..];
      if s[0] != id {
        RemovedFrom(s[1..], id);
        var r := Removed(s[1..], id);
        forall i | 0 <= i < |r| ensures s[0] < r[i] {
          assert r[i] in r;
        }
        assert Removed(s, id) == [s[0]] + r;
      }
    }
  }

  lemma RemoveIndexed(clusters: map<nat, Cluster>, groups: map<GroupKey, seq<nat>>, id: nat)
    requires Indexed(clusters, groups) && id in clusters
    ensures Indexed(clusters - {id}, groups[clusters[id].key := Removed(groups[clusters[id].key], id)])
  {
    var key := clusters[id].key;
    var fewer, lists := clusters - {id}, groups[key := Removed(groups[key], id)];
    assert GroupAt(clusters, groups, key);
    RemovedFrom(groups[key], id);
    forall k | k in lists ensures GroupAt(fewer, lists, k) {
      assert GroupAt(clusters, groups, k);
    }
  }

  lemma UpdateIndexed(clusters: map<nat, Cluster>, groups: map<GroupKey, seq<nat>>, id: nat, c: Cluster)
    requires Indexed(clusters, groups) && id in clusters && c.key == clusters[id].key
    ensures Indexed(clusters[id := c], groups)
  {
    forall k | k in groups ensures GroupAt(clusters[id := c], groups, k) {
      assert GroupAt(clusters, groups, k);
    }
  }

  // --------------------------------------------------------------- choosing a cluster

  ghost predicate Candidate(clusters: map<nat, Cluster>, line: Line, id: nat) {
    id in clusters && clusters[id].key == KeyOf(line) && |clusters[id].tokens| == |line|
  }

  /** Among equally similar clusters the oldest id counts as closer. */
  ghost predicate AsClose(clusters: map<nat, Cluster>, line: Line, id: nat, x: nat)
    requires Candidate(clusters, line, id) && Candidate(clusters, line, x)
  {
    var a, b := Similarity(clusters[id].tokens, line), Similarity(clusters[x].tokens, line);
    b < a || (a == b && id <= x)
  }

  ghost predicate Closest(clusters: map<nat, Cluster>, line: Line, id: nat) {
    && Candidate(clusters, line, id)
    && forall x :: Candidate(clusters, line, x) ==> AsClose(clusters, line, id, x)
  }

  /** The line belongs to cluster id: the closest of its group, and close enough. */
  ghost predicate Joins(clusters: map<nat, Cluster>, line: Line, threshold: real, id: nat) {
    Closest(clusters, line, id)
    && Similarity(clusters[id].tokens, line) > 0.0 && Similarity(clusters[id].tokens, line) >= threshold
  }

  /** x is no closer than the best so far, and less close if it is older. */
  ghost predicate Beaten(clusters: map<nat, Cluster>, line: Line, x: nat, best: Option<nat>, bestSim: real) {
    && Candidate(clusters, line, x) && Similarity(clusters[x].tokens, line) <= bestSim
    && (best.Some? && x < best.value ==> Similarity(clusters[x].tokens, line) < bestSim)
  }

  lemma ClosestIsUnique(clusters: map<nat, Cluster>, line: Line, a: nat, b: nat)
    requires Closest(clusters, line, a) && Closest(clusters, line, b)
    ensures a == b
  {
    assert AsClose(clusters, line, a, b) && AsClose(clusters, line, b, a);
  }

  // -------------------------------------------------------------------------- the miner

  ghost predicate Summaries(home: Log, fed: seq<Line>, clusters: map<nat, Cluster>)
    requires |home| == |fed|
  {
    forall id :: id in clusters ==> Summary(home, fed, id, clusters[id])
  }

  // ------------------------------------------------- how alike a line and a template are

  /** A mask, like `<ip>` or the wildcard. */
  predicate IsMask(t: Token) {
    t != "" && t[0] == '<'
  }

  /** As many tokens, and the same first one or two masks. */
  predicate SameGroup(tokens: Line, line: Line) {
    && |tokens| == |line|
    && (line == [] || tokens[0] == line[0] || (IsMask(tokens[0]) && IsMask(line[0])))
  }

  /** The positions where the line fits the template. */
  function FitSet(tokens: Line, line: Line): set<nat> {
    set i: nat | i < |tokens| && i < |line| && (tokens[i] == line[i] || tokens[i] == "<*>" || line[i] == "<*>")
  }

  ghost predicate LiveIn(clusters: map<nat, Cluster>, line: Line, id: nat) {
    id in clusters && SameGroup(clusters[id].tokens, line)
  }

  ghost function Fit(clusters: map<nat, Cluster>, line: Line, id: nat): nat
    requires id in clusters
  {
    |FitSet(clusters[id].tokens, line)|
  }

  /** The line fits a live template of its group somewhere, and in a large enough part. */
  ghost predicate Near(clusters: map<nat, Cluster>, line: Line, threshold: real, id: nat) {
    && LiveIn(clusters, line, id)
    && if line == [] then threshold <= 1.0
       else Fit(clusters, line, id) > 0 && Fit(clusters, line, id) as real >= threshold * (|line| as real)
  }

  /** No live template of the group fits in more positions, and no older one in as many. */
  ghost predicate BestFit(clusters: map<nat, Cluster>, line: Line, id: nat) {
    && LiveIn(clusters, line, id)
    && forall x :: LiveIn(clusters, line, x) ==>
         Fit(clusters, line, x) < Fit(clusters, line, id)
         || (Fit(clusters, line, x) == Fit(clusters, line, id) && id <= x)
  }

  lemma {:induction false} AgreeingCounts(a: Line, b: Line)
    requires |a| == |b|
    ensures Agreeing(a, b) == |FitSet(a, b)|
  {
    if a != [] {
      var n := |a| - 1;
      AgreeingCounts(a[..n], b[..n]);
      assert FitSet(a, b) == FitSet(a[..n], b[..n]) + if SameAt(a, b, n) then {n} else {};
      assert n !in FitSet(a[..n], b[..n]);
    }
  }

  lemma SimilarityMeans(a: Line, b: Line, threshold: real)
    requires |a| == |b| && a != []
    ensures Similarity(a, b) * (|a| as real) == |FitSet(a, b)| as real
    ensures Similarity(a, b) >= threshold <==> |FitSet(a, b)| as real >= threshold * (|a| as real)
    ensures Similarity(a, b) > 0.0 <==> |FitSet(a, b)| > 0
  {
    AgreeingCounts(a, b);
    QuotientAtLeast(Agreeing(a, b) as real, |a| as real, threshold);
  }

  lemma QuotientAtLeast(x: real, n: real, t: real)
    requires n > 0.0 && x >= 0.0
    ensures x / n * n == x && (x / n >= t <==> x >= t * n) && (x / n > 0.0 <==> x > 0.0)
  {
    var q := x / n;
    assert q * n == x;
    if q >= t { assert (q - t) * n >= 0.0; } else { assert (t - q) * n > 0.0; }
    if q > 0.0 { assert q * n > 0.0; } else { assert (0.0 - q) * n >= 0.0; }
  }

  lemma SimilarityOrder(a: Line, b: Line, line: Line)
    requires |a| == |b| == |line|
    ensures Similarity(a, line) < Similarity(b, line) <==> |FitSet(a, line)| < |FitSet(b, line)|
    ensures Similarity(a, line) == Similarity(b, line) <==> |FitSet(a, line)| == |FitSet(b, line)|
  {
    if a == [] {
      assert FitSet(a, line) == {} && FitSet(b, line) == {};
    } else {
      AgreeingCounts(a, line);
      AgreeingCounts(b, line);
      QuotientOrder(Agreeing(a, line) as real, Agreeing(b, line) as real, |line| as real);
    }
  }

  lemma QuotientOrder(x: real, y: real, n: real)
    requires n > 0.0
    ensures x / n < y / n <==> x < y
  {
    var p, q := x / n, y / n;
    assert p * n == x && q * n == y;
    if p < q { assert (q - p) * n > 0.0; } else { assert (p - q) * n >= 0.0; }
  }

  /** The first token of a template still tells the group that its lines were filed under. */
  lemma CandidateMeans(home: Log, fed: seq<Line>, clusters: map<nat, Cluster>, line: Line, id: nat)
    requires |home| == |fed| && Summaries(home, fed, clusters)
    ensures Candidate(clusters, line, id) <==> LiveIn(clusters, line, id)
  {
    if id in clusters {
      var c := clusters[id];
      assert Summary(home, fed, id, c);
      var i :| 0 <= i < |home| && home[i] == id;
      assert JoinedAt(home, fed, id, c.tokens, c.key, i);
      if c.tokens != [] {
        assert TokenAt(home, fed, id, c.tokens, 0);
        var first := fed[i][0];
        if !IsMask(first) {
          forall k | 0 <= k < |home| && home[k] == id ensures fed[k] != [] && fed[k][0] == first {
            assert JoinedAt(home, fed, id, c.tokens, c.key, k);
          }
          assert Agree(home, fed, id, 0, first);
        }
      }
    }
  }

  lemma JoinsIsBestFit(home: Log, fed: seq<Line>, clusters: map<nat, Cluster>, line: Line, threshold: real, id: nat)
    requires |home| == |fed| && Summaries(home, fed, clusters) && Joins(clusters, line, threshold, id)
    ensures Near(clusters, line, threshold, id) && BestFit(clusters, line, id)
  {
    hide Similarity, SameGroup, FitSet, Summaries;
    CandidateMeans(home, fed, clusters, line, id);
    var tokens := clusters[id].tokens;
    if line == [] { EmptyIsAlike(tokens, line); } else { SimilarityMeans(tokens, line, threshold); }
    forall x | LiveIn(clusters, line, x)
      ensures Fit(clusters, line, x) < Fit(clusters, line, id)
              || (Fit(clusters, line, x) == Fit(clusters, line, id) && id <= x)
    {
      CandidateMeans(home, fed, clusters, line, x);
      assert AsClose(clusters, line, id, x);
      SimilarityOrder(clusters[x].tokens, tokens, line);
    }
  }

  lemma EmptyIsAlike(a: Line, b: Line)
    requires |a| == |b| == 0
    ensures Similarity(a, b) == 1.0
  {
  }

  lemma NoneIsNear(home: Log, fed: seq<Line>, clusters: map<nat, Cluster>, line: Line, threshold: real,
                   best: Option<nat>)
    requires |home| == |fed| && Summaries(home, fed, clusters)
    requires best.Some? ==>
               Closest(clusters, line, best.value) && Similarity(clusters[best.value].tokens, line) < threshold
    requires best.None? ==> forall x :: Candidate(clusters, line, x) ==> Similarity(clusters[x].tokens, line) <= 0.0
    ensures !exists x :: Near(clusters, line, threshold, x)
  {
    hide Similarity, SameGroup, FitSet, Summaries;
    forall x ensures !Near(clusters, line, threshold, x) {
      CandidateMeans(home, fed, clusters, line, x);
      if LiveIn(clusters, line, x) {
        var tokens := clusters[x].tokens;
        if line == [] { EmptyIsAlike(tokens, line); } else { SimilarityMeans(tokens, line, threshold); }
        assert best.Some? ==> AsClose(clusters, line, best.value, x);
      }
    }
  }

  lemma {:induction false} FullFit(tokens: Line, line: Line)
    requires |tokens| == |line| && forall i :: 0 <= i < |line| ==> SameAt(tokens, line, i)
    ensures Agreeing(tokens, line) == |line|
  {
    if line != [] {
      var n := |line| - 1;
      forall i | 0 <= i < n ensures SameAt(tokens[..n], line[..n], i) { assert SameAt(tokens, line, i); }
      FullFit(tokens[..n], line[..n]);
    }
  }

  /** A line that fits a live template everywhere founds no cluster, unless more than that is asked. */
  lemma RepeatIsNear(clusters: map<nat, Cluster>, line: Line, threshold: real, id: nat)
    requires threshold <= 1.0 && LiveIn(clusters, line, id)
    requires forall i :: 0 <= i < |line| ==> SameAt(clusters[id].tokens, line, i)
    ensures Near(clusters, line, threshold, id)
  {
    FullFit(clusters[id].tokens, line);
    AgreeingCounts(clusters[id].tokens, line);
    assert (1.0 - threshold) * (|line| as real) >= 0.0;
  }

  ghost predicate Mined(home: Log, fed: seq<Line>, cap: nat, clusters: map<nat, Cluster>, order: seq<nat>,
                        groups: map<GroupKey, seq<nat>>, nextId: nat)
  {
    && Fed(home, fed, nextId) && Recency(home, cap, order) && clusters.Keys == Elements(order)
    && Indexed(clusters, groups) && Summaries(home, fed, clusters)
  }

  lemma LiveHasJoined(home: Log, fed: seq<Line>, clusters: map<nat, Cluster>, id: nat)
    requires |home| == |fed| && Summaries(home, fed, clusters) && id in clusters
    ensures id in home
  {
    assert Summary(home, fed, id, clusters[id]);
  }

  lemma CandidateInOrder(home: Log, fed: seq<Line>, cap: nat, clusters: map<nat, Cluster>, order: seq<nat>,
                         groups: map<GroupKey, seq<nat>>, nextId: nat, line: Line, id: nat)
    requires Mined(home, fed, cap, clusters, order, groups, nextId) && Candidate(clusters, line, id)
    ensures id in order && id in clusters && |clusters[id].tokens| == |line|
  {
    assert id in clusters.Keys;
  }

  lemma JoinMines(home: Log, fed: seq<Line>, cap: nat, clusters: map<nat, Cluster>, order: seq<nat>,
                  groups: map<GroupKey, seq<nat>>, nextId: nat, line: Line, id: nat, p: nat)
    requires cap > 0 && Mined(home, fed, cap, clusters, order, groups, nextId)
    requires Candidate(clusters, line, id) && p < |order| && order[p] == id
    ensures var c := clusters[id];
            Mined(home + [id], fed + [line], cap, clusters[id := Cluster(Merged(c.tokens, line), c.key, c.count + 1)],
                  Without(order, p) + [id], groups, nextId)
  {
    hide Recency, Indexed, Summaries, Merged, Elements, Without, Candidate;
    CandidateInOrder(home, fed, cap, clusters, order, groups, nextId, line, id);
    var c := clusters[id];
    var merged := Cluster(Merged(c.tokens, line), c.key, c.count + 1);
    var next := clusters[id := merged];
    LiveHasJoined(home, fed, clusters, id);
    MovedIsRecency(home, cap, order, id, p);
    UpdateIndexed(clusters, groups, id, merged);
    JoinSummaries(home, fed, clusters, line, id);
    MovedElements(order, p);
    FedAgain(home, fed, nextId, id, line);
    assert next.Keys == clusters.Keys;
  }

  lemma FedAgain(home: Log, fed: seq<Line>, nextId: nat, id: nat, line: Line)
    requires Fed(home, fed, nextId) && id in home
    ensures Fed(home + [id], fed + [line], nextId)
  {
  }

  lemma JoinSummaries(home: Log, fed: seq<Line>, clusters: map<nat, Cluster>, line: Line, id: nat)
    requires |home| == |fed| && Summaries(home, fed, clusters) && Candidate(clusters, line, id)
    ensures var c := clusters[id];
            Summaries(home + [id], fed + [line], clusters[id := Cluster(Merged(c.tokens, line), c.key, c.count + 1)])
  {
    assert Summary(home, fed, id, clusters[id]);
    JoinKeeps(home, fed, id, clusters[id], line);
    forall x | x in clusters && x != id ensures Summary(home + [id], fed + [line], x, clusters[x]) {
      OtherKeeps(home, fed, x, clusters[x], id, line);
    }
  }

  /** The state after a new cluster has been filed and the oldest one evicted if there is one too many. */
  lemma CreateMines(home: Log, fed: seq<Line>, cap: nat, clusters: map<nat, Cluster>, order: seq<nat>,
                    groups: map<GroupKey, seq<nat>>, nextId: nat, line: Line,
                    left: map<nat, Cluster>, lists: map<GroupKey, seq<nat>>)
    requires cap > 0 && Mined(home, fed, cap, clusters, order, groups, nextId)
    requires left.Keys == Elements(Inserted(order, cap, nextId)) && Indexed(left, lists)
    requires var filed := clusters[nextId := Cluster(line, KeyOf(line), 1)];
             forall id :: id in left ==> id in filed && left[id] == filed[id]
    ensures Mined(home + [nextId], fed + [line], cap, left, Inserted(order, cap, nextId), lists, nextId + 1)
  {
    assert nextId !in home;
    forall id | id in order ensures id in clusters && id in home && id != nextId {
      assert id in clusters.Keys;
      assert Summary(home, fed, id, clusters[id]);
    }
    InsertedIsRecency(home, cap, order, nextId);
    InsertedDistinct(order, cap, nextId);
    forall id | id in left ensures Summary(home + [nextId], fed + [line], id, left[id]) {
      assert id in left.Keys;
      if id == nextId {
        CreatedSummary(home, fed, nextId, line);
      } else {
        assert id in order && id in clusters;
        OtherKeeps(home, fed, id, clusters[id], nextId, line);
      }
    }
  }

  lemma MinedParts(home: Log, fed: seq<Line>, cap: nat, clusters: map<nat, Cluster>, order: seq<nat>,
                   groups: map<GroupKey, seq<nat>>, nextId: nat)
    requires Mined(home, fed, cap, clusters, order, groups, nextId)
    ensures Indexed(clusters, groups) && clusters.Keys == Elements(order)
  {
  }

  /** A new id is larger than every live one. */
  lemma NewIdIsFree(home: Log, fed: seq<Line>, cap: nat, clusters: map<nat, Cluster>, order: seq<nat>,
                    groups: map<GroupKey, seq<nat>>, nextId: nat)
    requires Mined(home, fed, cap, clusters, order, groups, nextId)
    ensures (forall x :: x in clusters ==> x < nextId) && nextId !in order && Distinct(order) && |order| <= cap
  {
    forall x | x in clusters ensures x < nextId {
      assert Summary(home, fed, x, clusters[x]);
    }
    assert nextId in order ==> nextId in clusters.Keys;
  }

  /** The maps right after a cluster is filed, before eviction. */
  lemma FiledIndexed(clusters: map<nat, Cluster>, order: seq<nat>, groups: map<GroupKey, seq<nat>>, id: nat, c: Cluster)
    requires Indexed(clusters, groups) && clusters.Keys == Elements(order) && Distinct(order)
    requires id !in order && forall x :: x in clusters ==> x < id
    ensures Indexed(clusters[id := c], Appended(groups, c.key, id))
    ensures clusters[id := c].Keys == Elements(order + [id]) && Distinct(order + [id])
  {
    AppendIndexed(clusters, groups, id, c);
  }

  lemma EvictStep(clusters: map<nat, Cluster>, order: seq<nat>, groups: map<GroupKey, seq<nat>>)
    requires order != [] && Distinct(order) && clusters.Keys == Elements(order) && Indexed(clusters, groups)
    ensures order[0] in clusters && clusters[order[0]].key in groups
    ensures var id, key := order[0], clusters[order[0]].key;
            Indexed(clusters - {id}, groups[key := Removed(groups[key], id)])
            && (clusters - {id}).Keys == Elements(order[1..]) && Distinct(order[1..])
  {
    var id := order[0];
    assert id in clusters.Keys;
    RemoveIndexed(clusters, groups, id);
    hide Indexed;
    assert order == [id] + order[1..] && id !in order[1..];
  }

  lemma EvictedIsInserted(order: seq<nat>, cap: nat, id: nat)
    requires cap > 0 && |order| <= cap
    ensures var all := order + [id]; Inserted(order, cap, id) == if |all| > cap then all[|all| - cap..] else all
  {
  }

  class Miner {
    const threshold: real
    const maxClusters: nat
    var clusters: map<nat, Cluster>
    var order: seq<nat>
    var groups: map<GroupKey, seq<nat>>
    var nextId: nat
    var total: nat
    ghost var home: Log
    ghost var fed: seq<Line>

    ghost predicate Valid()
      reads this
    {
      && maxClusters > 0 && total == |fed|
      && Mined(home, fed, maxClusters, clusters, order, groups, nextId)
    }

    constructor (threshold: real, maxClusters: nat)
      requires maxClusters > 0
      ensures Valid() && fed == [] && total == 0
      ensures this.threshold == threshold && this.maxClusters == maxClusters
    {
      this.threshold, this.maxClusters := threshold, maxClusters;
      clusters, order, groups, nextId, total := map[], [], map[], 1, 0;
      home, fed := [], [];
    }

    /** The search through the line's group list. */
    method FindBest(line: Line) returns (best: Option<nat>)
      requires Indexed(clusters, groups)
      requires forall id :: id in clusters ==> clusters[id].key.0 == |clusters[id].tokens|
      ensures best.Some? ==> Closest(clusters, line, best.value) && Similarity(clusters[best.value].tokens, line) > 0.0
      ensures best.None? ==> forall x :: Candidate(clusters, line, x) ==> Similarity(clusters[x].tokens, line) <= 0.0
    {
      best := None;
      var bestSim := 0.0;
      var key := KeyOf(line);
      if key !in groups {
        return;
      }
      assert GroupAt(clusters, groups, key);
      var ids := groups[key];
      for i := 0 to |ids|
        invariant best.None? ==> bestSim == 0.0
        invariant best.Some? ==> best.value in ids[..i] && Candidate(clusters, line, best.value)
                                 && bestSim == Similarity(clusters[best.value].tokens, line) > 0.0
        invariant forall j :: 0 <= j < i ==> Beaten(clusters, line, ids[j], best, bestSim)
      {
        var id := ids[i];
        assert id in ids;
        var sim := Similarity(clusters[id].tokens, line);
        if sim > bestSim {
          best, bestSim := Some(id), sim;
        }
      }
      forall x | Candidate(clusters, line, x)
        ensures Similarity(clusters[x].tokens, line) <= bestSim
        ensures best.Some? ==> AsClose(clusters, line, best.value, x)
      {
        var j :| 0 <= j < |ids| && ids[j] == x;
      }
    }

    /** `_evict_if_needed` */
    method EvictIfNeeded()
      requires Distinct(order) && clusters.Keys == Elements(order) && Indexed(clusters, groups)
      modifies this`clusters, this`order, this`groups
      ensures order == if |old(order)| > maxClusters then old(order)[|old(order)| - maxClusters..] else old(order)
      ensures clusters.Keys == Elements(order) && Indexed(clusters, groups)
      ensures forall id :: id in clusters ==> id in old(clusters) && clusters[id] == old(clusters)[id]
    {
      hide *;
      ghost var gone := 0;
      while |order| > maxClusters
        invariant 0 <= gone <= |old(order)| && order == old(order)[gone..] && Distinct(order)
        invariant gone > 0 ==> |order| >= maxClusters
        invariant clusters.Keys == Elements(order) && Indexed(clusters, groups)
        invariant forall id :: id in clusters ==> id in old(clusters) && clusters[id] == old(clusters)[id]
        decreases |order|
      {
        EvictStep(clusters, order, groups);
        var id := order[0];
        var key := clusters[id].key;
        clusters, order, groups := clusters - {id}, order[1..], groups[key := Removed(groups[key], id)];
        gone := gone + 1;
      }
    }

    /** `add`, after masking and tokenizing */
    method Add(line: Line) returns (id: nat)
      requires Valid()
      modifies this
      ensures Valid() && fed == old(fed) + [line] && home == old(home) + [id]
      ensures if exists x :: Joins(old(clusters), line, threshold, x)
              then Joins(old(clusters), line, threshold, id) && nextId == old(nextId)
              else id == old(nextId) && nextId == id + 1
      ensures if exists x :: Near(old(clusters), line, threshold, x)
              then Near(old(clusters), line, threshold, id) && BestFit(old(clusters), line, id) && nextId == old(nextId)
              else id == old(nextId) && nextId == id + 1
    {
      SizesKnown();
      var best := FindBest(line);
      if best.Some? && Similarity(clusters[best.value].tokens, line) >= threshold {
        id := best.value;
        assert Joins(clusters, line, threshold, id);
        JoinsIsBestFit(home, fed, clusters, line, threshold, id);
        Join(id, line);
      } else {
        id := nextId;
        NoneJoins(best, line);
        NoneIsNear(home, fed, clusters, line, threshold, best);
        Create(line);
      }
    }

    lemma SizesKnown()
      requires Valid()
      ensures forall id :: id in clusters ==> clusters[id].key.0 == |clusters[id].tokens|
    {
      forall id | id in clusters ensures clusters[id].key.0 == |clusters[id].tokens| {
        assert Summary(home, fed, id, clusters[id]);
      }
    }

    lemma NoneJoins(best: Option<nat>, line: Line)
      requires best.Some? ==>
                 Closest(clusters, line, best.value) && Similarity(clusters[best.value].tokens, line) < threshold
      requires best.None? ==> forall x :: Candidate(clusters, line, x) ==> Similarity(clusters[x].tokens, line) <= 0.0
      ensures !exists x :: Joins(clusters, line, threshold, x)
    {
      forall x ensures !Joins(clusters, line, threshold, x) {
        if Closest(clusters, line, x) && best.Some? {
          ClosestIsUnique(clusters, line, x, best.value);
        }
      }
    }

    method Join(id: nat, line: Line)
      requires Valid() && Candidate(clusters, line, id)
      modifies this
      ensures Valid() && fed == old(fed) + [line] && home == old(home) + [id] && nextId == old(nextId)
    {
      hide *;
      MinedState();
      CandidateInOrder(home, fed, maxClusters, clusters, order, groups, nextId, line, id);
      var p :| 0 <= p < |order| && order[p] == id;
      JoinMines(home, fed, maxClusters, clusters, order, groups, nextId, line, id, p);
      var c := clusters[id];
      clusters := clusters[id := Cluster(Merged(c.tokens, line), c.key, c.count + 1)];
      order := Without(order, p) + [id];
      total := total + 1;
      home, fed := home + [id], fed + [line];
      IsValid();
    }

    lemma MinedState()
      requires Valid()
      ensures maxClusters > 0 && total == |fed| && Mined(home, fed, maxClusters, clusters, order, groups, nextId)
    {
    }

    lemma IsValid()
      requires maxClusters > 0 && total == |fed| && Mined(home, fed, maxClusters, clusters, order, groups, nextId)
      ensures Valid()
    {
    }

    method Create(line: Line)
      requires Valid()
      modifies this
      ensures Valid() && fed == old(fed) + [line] && home == old(home) + [old(nextId)] && nextId == old(nextId) + 1
    {
      hide *;
      MinedState();
      var id := nextId;
      MinedParts(home, fed, maxClusters, clusters, order, groups, nextId);
      NewIdIsFree(home, fed, maxClusters, clusters, order, groups, nextId);
      var c := Cluster(line, KeyOf(line), 1);
      FiledIndexed(clusters, order, groups, id, c);
      clusters, order, groups := clusters[id := c], order + [id], Appended(groups, c.key, id);
      nextId := nextId + 1;
      EvictIfNeeded();
      EvictedIsInserted(old(order), maxClusters, id);
      total := total + 1;
      CreateMines(old(home), old(fed), maxClusters, old(clusters), old(order), old(groups), id, line, clusters, groups);
      home, fed := home + [id], fed + [line];
      IsValid();
    }
  }

  // ------------------------------------------------------------- what a run leaves behind

  function LiveLines(clusters: map<nat, Cluster>, n: nat): nat {
    if n == 0 then 0 else LiveLines(clusters, n - 1) + if n - 1 in clusters then clusters[n - 1].count else 0
  }

  /** Lines that joined a cluster since evicted. */
  function EvictedLines(home: Log, clusters: map<nat, Cluster>, n: nat): nat {
    if n == 0 then 0 else EvictedLines(home, clusters, n - 1) + if n - 1 in clusters then 0 else Count(home, n - 1)
  }

  function AllLines(home: Log, n: nat): nat {
    if n == 0 then 0 else AllLines(home, n - 1) + Count(home, n - 1)
  }

  lemma {:induction false} AllLinesNext(home: Log, u: nat, n: nat)
    ensures AllLines(home + [u], n) == AllLines(home, n) + if u < n then 1 else 0
  {
    if n > 0 {
      AllLinesNext(home, u, n - 1);
      CountNext(home, n - 1, u);
    }
  }

  lemma {:induction false} EveryLineJoined(home: Log, n: nat)
    requires forall i :: 0 <= i < |home| ==> home[i] < n
    ensures AllLines(home, n) == |home|
  {
    if home == [] {
      NoLines(n);
    } else {
      EveryLineJoined(Init(home), n);
      AllLinesNext(Init(home), Last(home), n);
      assert home == Init(home) + [Last(home)];
    }
  }

  lemma {:induction false} NoLines(n: nat)
    ensures AllLines([], n) == 0
  {
    if n > 0 { NoLines(n - 1); }
  }

  lemma {:induction false} LiveAndEvicted(home: Log, fed: seq<Line>, clusters: map<nat, Cluster>, n: nat)
    requires |home| == |fed| && Summaries(home, fed, clusters)
    ensures LiveLines(clusters, n) + EvictedLines(home, clusters, n) == AllLines(home, n)
  {
    if n > 0 {
      LiveAndEvicted(home, fed, clusters, n - 1);
      assert n - 1 in clusters ==> Summary(home, fed, n - 1, clusters[n - 1]);
    }
  }

  /** After any run every line fed is in a live cluster's count or was in an evicted one's. */
  lemma LinesAreConserved(m: Miner)
    requires m.Valid()
    ensures m.total == LiveLines(m.clusters, m.nextId) + EvictedLines(m.home, m.clusters, m.nextId)
  {
    EveryLineJoined(m.home, m.nextId);
    LiveAndEvicted(m.home, m.fed, m.clusters, m.nextId);
  }

  /** The live clusters are the maxClusters most recently used ones. */
  lemma LiveAreMostRecent(m: Miner, id: nat)
    requires m.Valid()
    ensures id in m.clusters <==> Tracked(m.home, m.maxClusters, id)
    ensures |m.clusters| <= m.maxClusters
  {
    assert id in m.clusters <==> id in m.clusters.Keys;
    DistinctSize(m.order);
    assert |m.clusters| == |m.clusters.Keys|;
  }

  /** Each live cluster is in its own group list, once, and in no other; the lists hold nothing else. */
  lemma LiveInOneGroup(m: Miner, id: nat)
    requires m.Valid()
    ensures id in m.clusters ==> m.clusters[id].key in m.groups && multiset(m.groups[m.clusters[id].key])[id] == 1
    ensures forall k :: k in m.groups ==> (id in m.groups[k] <==> id in m.clusters && m.clusters[id].key == k)
  {
    forall k | k in m.groups ensures id in m.groups[k] <==> id in m.clusters && m.clusters[id].key == k {
      assert GroupAt(m.clusters, m.groups, k);
    }
    if id in m.clusters {
      var list := m.groups[m.clusters[id].key];
      assert id in list && Distinct(list);
      DistinctCount(list, id);
    }
  }

  /** A live template is exact: a token stands where all the cluster's lines have it, a wildcard
      where they differ. */
  lemma TemplateIsExact(m: Miner, id: nat, p: nat, x: Token)
    requires m.Valid() && id in m.clusters && p < |m.clusters[id].tokens| && x != WILD
    ensures m.clusters[id].tokens[p] == x <==> Agree(m.home, m.fed, id, p, x)
  {
    assert Summary(m.home, m.fed, id, m.clusters[id]);
    assert TokenAt(m.home, m.fed, id, m.clusters[id].tokens, p);
  }
}
