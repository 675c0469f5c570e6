/** The recordings view: segments are grouped into blocks without a gap of more than five minutes. */
module Blocks {
  import opened Sorting

  const GAP_THRESHOLD_MS: int := 300_000

  /** Times in milliseconds. */
  datatype Seg = Seg(start: int, end: int, size: nat, pool: nat)

  predicate StartLe(a: Seg, b: Seg) {
    a.start <= b.start
  }

  /** What the view shows of one block. */
  datatype Summary = Summary(start: int, end: int, size: nat, count: nat, pools: set<nat>)

  /** The segments of one block, in start order. */
  type Group = g: seq<Seg> | g != [] witness [Seg(0, 0, 0, 0)]

  function MaxEnd(g: Group): int {
    var n := |g| - 1;
    if n == 0 then g[0].end
    else var e := MaxEnd(g[..n]); if e > g[n].end then e else g[n].end
  }

  function TotalSize(g: seq<Seg>): nat {
    if g == [] then 0 else TotalSize(g[..|g| - 1]) + g[|g| - 1].size
  }

  function Summarize(g: Group): Summary {
    Summary(g[0].start, MaxEnd(g), TotalSize(g), |g|, set s | s in g :: s.pool)
  }

  // ---- the groups ----

  /** The groups of a list in start order: a segment joins the last group unless it starts more than the
      threshold after everything in it has ended. */
  function Groups(segs: seq<Seg>): (gs: seq<Group>)
    ensures segs != [] ==> gs != []
  {
    if segs == [] then [] else Place(Groups(segs[..|segs| - 1]), segs[|segs| - 1])
  }

  predicate Opens(gs: seq<Group>, x: Seg) {
    gs == [] || x.start - MaxEnd(gs[|gs| - 1]) > GAP_THRESHOLD_MS
  }

  function Place(gs: seq<Group>, x: Seg): (r: seq<Group>)
    ensures r != [] && |r| == |gs| + (if Opens(gs, x) then 1 else 0)
  {
    if Opens(gs, x) then gs + [[x]] else gs[..|gs| - 1] + [gs[|gs| - 1] + [x]]
  }

  function Summaries(gs: seq<Group>): seq<Summary> {
    seq(|gs|, i requires 0 <= i < |gs| => Summarize(gs[i]))
  }

  function Flatten(gs: seq<Group>): seq<Seg> {
    if gs == [] then [] else Flatten(gs[..|gs| - 1]) + gs[|gs| - 1]
  }

  // ---- the loop ----

  class Block {
    var start: int
    var end: int
    var size: nat
    var segCount: nat
    var pools: set<nat>

    constructor (seg: Seg)
      ensures Value() == Summarize([seg])
    {
      start, end, size, segCount, pools := seg.start, seg.end, seg.size, 1, {seg.pool};
      new;
      assert TotalSize([seg]) == TotalSize([seg][..0]) + seg.size;
    }

    function Value(): Summary
      reads this
    {
      Summary(start, end, size, segCount, pools)
    }

    method Extend(seg: Seg, ghost g: Group)
      requires Value() == Summarize(g)
      modifies this
      ensures Value() == Summarize(g + [seg])
    {
      end := if end > seg.end then end else seg.end;
      size := size + seg.size;
      segCount := segCount + 1;
      pools := pools + {seg.pool};
      assert (g + [seg])[..|g|] == g;
    }
  }

  predicate Shows(blocks: seq<Block>, summaries: seq<Summary>)
    reads set i | 0 <= i < |blocks| :: blocks[i]
  {
    |blocks| == |summaries| && forall i :: 0 <= i < |blocks| ==> blocks[i].Value() == summaries[i]
  }

  predicate NoSharing(blocks: seq<Block>) {
    forall k, l :: 0 <= k < l < |blocks| ==> blocks[k] != blocks[l]
  }

  /** One segment: extends the last block in place or opens a new one. */
  method AddSegment(blocks: seq<Block>, seg: Seg, ghost gs: seq<Group>) returns (more: seq<Block>)
    requires Shows(blocks, Summaries(gs)) && NoSharing(blocks)
    modifies if blocks == [] then {} else {blocks[|blocks| - 1]}
    ensures Shows(more, Summaries(Place(gs, seg))) && NoSharing(more)
    ensures forall b :: b in more ==> b in blocks || fresh(b)
  {
    if blocks == [] || seg.start - blocks[|blocks| - 1].end > GAP_THRESHOLD_MS {
      var block := new Block(seg);
      more := blocks + [block];
    } else {
      blocks[|blocks| - 1].Extend(seg, gs[|gs| - 1]);
      more := blocks;
    }
  }

  /** Sorts the list in place, then merges it into blocks. */
  method MergeBlocks(segments: array<Seg>) returns (blocks: seq<Block>)
    modifies segments
    ensures segments[..] == SortBy(old(segments[..]), StartLe)
    ensures Shows(blocks, Summaries(Groups(segments[..]))) && NoSharing(blocks)
    ensures forall b :: b in blocks ==> fresh(b)
  {
    hide Place, Summaries, StartLe, SortBy, Summarize;
    ghost var ordered := SortBy(segments[..], StartLe);
    SortInPlace(segments);
    blocks := [];
    assert ordered[..0] == [] && Shows([], Summaries([])) by {
      NothingShown();
    }
    for i := 0 to segments.Length
      invariant segments[..] == ordered
      invariant Shows(blocks, Summaries(Groups(ordered[..i]))) && NoSharing(blocks)
      invariant forall b :: b in blocks ==> fresh(b)
    {
      GroupsStep(ordered, i);
      assert blocks != [] ==> blocks[|blocks| - 1] in blocks;
      assert segments[i] == segments[..][i];
      blocks := AddSegment(blocks, segments[i], Groups(ordered[..i]));
    }
    assert ordered[..segments.Length] == ordered;
  }

  lemma NothingShown()
    ensures |Summaries([])| == 0
  {
  }

  method SortInPlace(segments: array<Seg>)
    modifies segments
    ensures segments[..] == SortBy(old(segments[..]), StartLe)
  {
    var ordered := SortBy(segments[..], StartLe);
    forall i | 0 <= i < segments.Length {
      segments[i] := ordered[i];
    }
    assert segments[..] == ordered;
  }

  lemma GroupsStep(segs: seq<Seg>, n: nat)
    requires n < |segs|
    ensures Groups(segs[..n + 1]) == Place(Groups(segs[..n]), segs[n])
  {
    assert segs[..n + 1][..n] == segs[..n];
  }

  // ---- nothing is lost ----

  lemma {:induction false} FlattenGroups(segs: seq<Seg>)
    ensures Flatten(Groups(segs)) == segs
  {
    if segs == [] {
    } else {
      var init, x := segs[..|segs| - 1], segs[|segs| - 1];
      FlattenGroups(init);
      var gs := Groups(init);
      if Place(gs, x) == gs + [[x]] {
        assert (gs + [[x]])[..|gs|] == gs;
      } else {
        var last := gs[|gs| - 1];
        assert (gs[..|gs| - 1] + [last + [x]])[..|gs| - 1] == gs[..|gs| - 1];
      }
      assert segs == init + [x];
    }
  }

  function SizeOf(bs: seq<Summary>): nat {
    if bs == [] then 0 else SizeOf(bs[..|bs| - 1]) + bs[|bs| - 1].size
  }

  function CountOf(bs: seq<Summary>): nat {
    if bs == [] then 0 else CountOf(bs[..|bs| - 1]) + bs[|bs| - 1].count
  }

  lemma {:induction false} TotalSizeConcat(a: seq<Seg>, b: seq<Seg>)
    ensures TotalSize(a + b) == TotalSize(a) + TotalSize(b)
  {
    if b == [] {
      assert a + b == a;
    } else {
      assert (a + b)[..|a + b| - 1] == a + b[..|b| - 1];
      TotalSizeConcat(a, b[..|b| - 1]);
    }
  }

  lemma NoBytes()
    ensures TotalSize([]) == 0
  {
  }

  lemma {:induction false} SumsOfGroups(gs: seq<Group>)
    ensures SizeOf(Summaries(gs)) == TotalSize(Flatten(gs)) && CountOf(Summaries(gs)) == |Flatten(gs)|
  {
    hide MaxEnd, TotalSize;
    if gs == [] {
      NothingShown();
      assert Flatten(gs) == [];
      NoBytes();
    } else {
      var n := |gs| - 1;
      SumsOfGroups(gs[..n]);
      assert Summaries(gs)[..n] == Summaries(gs[..n]);
      assert Flatten(gs) == Flatten(gs[..n]) + gs[n];
      TotalSizeConcat(Flatten(gs[..n]), gs[n]);
    }
  }

  lemma {:induction false} SizeOfInsert(s: seq<Seg>, x: Seg)
    ensures TotalSize(InsertBy(s, x, StartLe)) == TotalSize(s) + x.size
  {
    assert TotalSize([x]) == TotalSize([x][..0]) + x.size;
    if s == [] {
    } else if StartLe(s[0], x) {
      SizeOfInsert(s[1..], x);
      TotalSizeConcat([s[0]], InsertBy(s[1..], x, StartLe));
      TotalSizeConcat([s[0]], s[1..]);
      assert s == [s[0]] + s[1..];
    } else {
      TotalSizeConcat([x], s);
    }
  }

  lemma {:induction false} SizeOfSorted(s: seq<Seg>)
    ensures TotalSize(SortBy(s, StartLe)) == TotalSize(s)
  {
    hide InsertBy;
    if s == [] {
    } else {
      SizeOfSorted(s[..|s| - 1]);
      SizeOfInsert(SortBy(s[..|s| - 1], StartLe), s[|s| - 1]);
    }
  }

  /** Sizes and counts of the blocks add up to those of the list, in whatever order it came. */
  lemma BlocksConserve(segs: seq<Seg>)
    ensures var bs := Summaries(Groups(SortBy(segs, StartLe)));
            SizeOf(bs) == TotalSize(segs) && CountOf(bs) == |segs|
  {
    var ordered := SortBy(segs, StartLe);
    FlattenGroups(ordered);
    SumsOfGroups(Groups(ordered));
    SizeOfSorted(segs);
  }

  // ---- a block is a connected component ----

  /** At most five minutes from the end of the earlier of two segments to the start of the later. */
  predicate Near(segs: seq<Seg>, i: nat, j: nat)
    requires i < |segs| && j < |segs|
  {
    (i < j ==> segs[j].start - segs[i].end <= 300_000)
    && (j < i ==> segs[i].start - segs[j].end <= 300_000)
  }

  /** A chain of positions, each near the next. */
  predicate Chain(segs: seq<Seg>, path: seq<nat>) {
    && (forall k :: 0 <= k < |path| ==> path[k] < |segs|)
    && (forall k :: 0 < k < |path| ==> Near(segs, path[k - 1], path[k]))
  }

  ghost predicate Connected(segs: seq<Seg>, i: nat, j: nat) {
    exists path :: Joins(segs, path, i, j)
  }

  predicate Joins(segs: seq<Seg>, path: seq<nat>, i: nat, j: nat) {
    Chain(segs, path) && path != [] && path[0] == i && path[|path| - 1] == j
  }

  lemma Symmetric(segs: seq<Seg>, i: nat, j: nat)
    requires Connected(segs, i, j)
    ensures Connected(segs, j, i)
  {
    var path :| Joins(segs, path, i, j);
    var n := |path|;
    var back := seq(n, k requires 0 <= k < n => path[n - 1 - k]);
    forall k | 0 < k < n ensures Near(segs, back[k - 1], back[k]) {
      assert Near(segs, path[n - 1 - k], path[n - k]);
    }
    assert Joins(segs, back, j, i);
  }

  lemma OneStepMore(segs: seq<Seg>, i: nat, j: nat, k: nat)
    requires Connected(segs, i, j) && k < |segs| && j < |segs| && Near(segs, j, k)
    ensures Connected(segs, i, k)
  {
    var path :| Joins(segs, path, i, j);
    assert Joins(segs, path + [k], i, k);
  }

  /** The number of the block segment i ends up in. */
  function BlockOf(segs: seq<Seg>, i: nat): nat
    requires i < |segs|
  {
    |Groups(segs[..i + 1])| - 1
  }

  predicate ByStart(segs: seq<Seg>) {
    forall i, j :: 0 <= i < j < |segs| ==> segs[i].start <= segs[j].start
  }

  /** The positions from `at` up to `end` are those with block number k. */
  ghost predicate Numbered(segs: seq<Seg>, k: nat, at: nat, end: nat) {
    at <= end <= |segs| && forall p: nat :: p < |segs| ==> (BlockOf(segs, p) == k <==> at <= p < end)
  }

  /** Group k consists of the segments at the positions with block number k, which start at `at`. */
  ghost predicate Holds(segs: seq<Seg>, gs: seq<Group>, k: nat, at: nat)
    requires k < |gs|
  {
    at + |gs[k]| <= |segs| && Numbered(segs, k, at, at + |gs[k]|) && segs[at..at + |gs[k]|] == gs[k]
  }

  lemma BlockOfPrefix(segs: seq<Seg>, n: nat, p: nat)
    requires p < n <= |segs|
    ensures BlockOf(segs[..n], p) == BlockOf(segs, p)
  {
    assert segs[..n][..p + 1] == segs[..p + 1];
  }

  lemma {:induction false} NumbersBelow(segs: seq<Seg>, p: nat)
    requires p < |segs|
    ensures BlockOf(segs, p) < |Groups(segs)|
    ensures p == |segs| - 1 ==> BlockOf(segs, p) == |Groups(segs)| - 1
  {
    var n := |segs| - 1;
    assert segs[..n + 1] == segs;
    if p == n {
    } else {
      NumbersBelow(segs[..n], p);
      BlockOfPrefix(segs, n, p);
    }
  }

  lemma LaterNumbered(segs: seq<Seg>, k: nat, at: nat, end: nat)
    requires segs != [] && at <= end <= |segs| - 1
    requires Numbered(segs[..|segs| - 1], k, at, end)
    requires BlockOf(segs, |segs| - 1) == k ==> end == |segs| - 1
    ensures Numbered(segs, k, at, if BlockOf(segs, |segs| - 1) == k then |segs| else end)
  {
    var n := |segs| - 1;
    forall p: nat | p < n ensures BlockOf(segs[..n], p) == BlockOf(segs, p) {
      BlockOfPrefix(segs, n, p);
    }
    hide BlockOf;
  }

  /** Block k of the result consists of the neighbouring positions whose block number is k. */
  lemma {:induction false} GroupsByNumber(segs: seq<Seg>, k: nat) returns (at: nat)
    requires k < |Groups(segs)|
    ensures Holds(segs, Groups(segs), k, at)
    ensures k == |Groups(segs)| - 1 ==> at + |Groups(segs)[k]| == |segs|
  {
    hide BlockOf, Numbered, Opens;
    var n := |segs| - 1;
    var gs, x := Groups(segs[..n]), segs[n];
    NumbersBelow(segs, n);
    assert Groups(segs) == Place(gs, x);
    hide Groups, MaxEnd, Place;
    if k < |gs| {
      at := GroupsByNumber(segs[..n], k);
      LaterNumbered(segs, k, at, at + |gs[k]|);
      LaterContents(segs, gs, x, k, at);
    } else {
      at := n;
      NewestContents(gs, x);
      NewestNumbered(segs, k);
      assert segs[n..n + 1] == [x];
    }
  }

  lemma NewestContents(gs: seq<Group>, x: Seg)
    ensures |Place(gs, x)| > |gs| ==> Place(gs, x)[|gs|] == [x]
  {
    hide MaxEnd;
  }

  lemma NewestNumbered(segs: seq<Seg>, k: nat)
    requires segs != [] && k == |Groups(segs[..|segs| - 1])| == BlockOf(segs, |segs| - 1)
    ensures Numbered(segs, k, |segs| - 1, |segs|)
  {
    var n := |segs| - 1;
    forall p: nat | p < n ensures BlockOf(segs, p) < k {
      BlockOfPrefix(segs, n, p);
      NumbersBelow(segs[..n], p);
    }
    hide BlockOf, Groups;
  }

  lemma LaterContents(segs: seq<Seg>, gs: seq<Group>, x: Seg, k: nat, at: nat)
    requires segs != [] && x == segs[|segs| - 1] && k < |gs| && at + |gs[k]| <= |segs| - 1
    requires segs[..|segs| - 1][at..at + |gs[k]|] == gs[k]
    requires k == |gs| - 1 ==> at + |gs[k]| == |segs| - 1
    ensures var r := Place(gs, x);
            if k == |gs| - 1 && !Opens(gs, x) then r[k] == gs[k] + [x] == segs[at..]
            else r[k] == gs[k] == segs[at..at + |gs[k]|]
  {
    assert segs[at..at + |gs[k]|] == segs[..|segs| - 1][at..at + |gs[k]|];
    if k == |gs| - 1 {
      assert segs[at..] == segs[at..|segs| - 1] + [x];
    }
  }

  lemma {:induction false} MaxEndIs(g: Group)
    ensures (forall m :: m in g ==> m.end <= MaxEnd(g)) && exists q :: 0 <= q < |g| && g[q].end == MaxEnd(g)
  {
    var n := |g| - 1;
    if n == 0 {
      assert g[0].end == MaxEnd(g);
    } else {
      MaxEndIs(g[..n]);
      assert g == g[..n] + [g[n]];
      var q :| 0 <= q < n && g[..n][q].end == MaxEnd(g[..n]);
      assert g[q].end == MaxEnd(g) || g[n].end == MaxEnd(g);
    }
  }

  /** What the view shows of a group in start order: its earliest start, its latest end, all its bytes, segments
      and files. */
  lemma SummaryIs(g: Group)
    requires ByStart(g)
    ensures var b := Summarize(g);
            && (forall m :: m in g ==> b.start <= m.start && m.end <= b.end)
            && (exists m :: m in g && m.start == b.start) && (exists m :: m in g && m.end == b.end)
            && b.count == |g| && (forall p :: p in b.pools <==> exists m :: m in g && m.pool == p)
            && b.size == TotalSize(g)
  {
    MaxEndIs(g);
    var q :| 0 <= q < |g| && g[q].end == MaxEnd(g);
    assert g[q] in g && g[0] in g;
    hide MaxEnd, TotalSize;
  }

  /** The group the next segment is compared with: the positions whose block number is the last one so far. */
  lemma LastGroup(segs: seq<Seg>, n: nat) returns (at: nat)
    requires 0 < n <= |segs|
    ensures var gs := Groups(segs[..n]);
            && at + |gs[|gs| - 1]| == n && segs[at..n] == gs[|gs| - 1]
            && forall p: nat :: p < n ==> (BlockOf(segs, p) == |gs| - 1 <==> at <= p)
  {
    var init := segs[..n];
    var gs := Groups(init);
    at := GroupsByNumber(init, |gs| - 1);
    forall p: nat | p < n ensures BlockOf(init, p) == BlockOf(segs, p) {
      BlockOfPrefix(segs, n, p);
    }
    hide BlockOf;
    assert segs[at..n] == init[at..n];
  }

  lemma NextBlock(segs: seq<Seg>, j: nat)
    requires 0 < j < |segs|
    ensures var gs := Groups(segs[..j]);
            && BlockOf(segs, j - 1) == |gs| - 1
            && BlockOf(segs, j) == if Opens(gs, segs[j]) then |gs| else |gs| - 1
  {
    GroupsStep(segs, j);
  }

  /** A segment in a later block starts more than the threshold after the end of any in an earlier block. */
  lemma {:induction false} LaterBlockFar(segs: seq<Seg>, i: nat, j: nat)
    requires ByStart(segs) && i < j < |segs| && BlockOf(segs, i) < BlockOf(segs, j)
    ensures segs[j].start - segs[i].end > 300_000
    decreases j
  {
    var gs := Groups(segs[..j]);
    NextBlock(segs, j);
    var at := LastGroup(segs, j);
    hide BlockOf, Groups;
    if BlockOf(segs, i) == |gs| - 1 {
      MaxEndIs(gs[|gs| - 1]);
      assert segs[at..j][i - at] == segs[i];
      assert segs[i] in gs[|gs| - 1];
    } else {
      NumbersGrow(segs, i, j - 1);
      LaterBlockFar(segs, i, j - 1);
      assert segs[j - 1].start <= segs[j].start;
    }
  }

  lemma {:induction false} NumbersGrow(segs: seq<Seg>, i: nat, j: nat)
    requires i <= j < |segs|
    ensures BlockOf(segs, i) <= BlockOf(segs, j)
  {
    if i == j {
    } else {
      NumbersGrow(segs, i, j - 1);
      NextBlock(segs, j);
    }
  }

  /** A segment that opened no block is near an earlier one of its block. */
  lemma NearEarlier(segs: seq<Seg>, i: nat, j: nat) returns (k: nat)
    requires i < j < |segs| && BlockOf(segs, i) == BlockOf(segs, j)
    ensures k < j && BlockOf(segs, k) == BlockOf(segs, j) && Near(segs, k, j)
  {
    hide BlockOf, Groups;
    var gs := Groups(segs[..j]);
    NextBlock(segs, j);
    NumbersGrow(segs, i, j - 1);
    var at := LastGroup(segs, j);
    var last := gs[|gs| - 1];
    MaxEndIs(last);
    var q :| 0 <= q < |last| && last[q].end == MaxEnd(last);
    k := at + q;
    assert segs[at..j][q] == segs[k];
  }

  lemma {:induction false} SameBlockConnected(segs: seq<Seg>, i: nat, j: nat)
    requires i <= j < |segs| && BlockOf(segs, i) == BlockOf(segs, j)
    ensures Connected(segs, i, j)
    decreases j
  {
    hide BlockOf;
    if i == j {
      assert Joins(segs, [i], i, j);
    } else {
      var k := NearEarlier(segs, i, j);
      hide Connected, Near;
      if i <= k {
        SameBlockConnected(segs, i, k);
      } else {
        SameBlockConnected(segs, k, i);
        Symmetric(segs, k, i);
      }
      OneStepMore(segs, i, k, j);
    }
  }

  lemma NearSameBlock(segs: seq<Seg>, i: nat, j: nat)
    requires ByStart(segs) && i < |segs| && j < |segs| && Near(segs, i, j)
    ensures BlockOf(segs, i) == BlockOf(segs, j)
  {
    hide BlockOf, ByStart;
    var a, b := if i <= j then i else j, if i <= j then j else i;
    NumbersGrow(segs, a, b);
    if BlockOf(segs, a) < BlockOf(segs, b) {
      LaterBlockFar(segs, a, b);
    }
  }

  lemma {:induction false} PathSameBlock(segs: seq<Seg>, path: seq<nat>, i: nat, j: nat)
    requires ByStart(segs) && Joins(segs, path, i, j)
    ensures i < |segs| && j < |segs| && BlockOf(segs, i) == BlockOf(segs, j)
  {
    var n := |path| - 1;
    hide BlockOf, ByStart;
    if n == 0 {
    } else {
      PathSameBlock(segs, path[..n], i, path[n - 1]);
      assert Near(segs, path[n - 1], path[n]);
      NearSameBlock(segs, path[n - 1], path[n]);
    }
  }

  /** The blocks are exactly the connected components of "at most five minutes apart". */
  lemma BlocksAreComponents(segs: seq<Seg>, i: nat, j: nat)
    requires ByStart(segs) && i < |segs| && j < |segs|
    ensures BlockOf(segs, i) == BlockOf(segs, j) <==> Connected(segs, i, j)
  {
    hide BlockOf, ByStart, Joins;
    if BlockOf(segs, i) == BlockOf(segs, j) {
      if i <= j {
        SameBlockConnected(segs, i, j);
      } else {
        SameBlockConnected(segs, j, i);
        Symmetric(segs, j, i);
      }
    }
    if Connected(segs, i, j) {
      var path :| Joins(segs, path, i, j);
      PathSameBlock(segs, path, i, j);
    }
  }

  /** Any two blocks lie more than five minutes apart, from the latest end in the earlier one. */
  lemma BlocksApart(segs: seq<Seg>, k: nat, l: nat)
    requires ByStart(segs) && k < l < |Groups(segs)|
    ensures Summaries(Groups(segs))[l].start - Summaries(Groups(segs))[k].end > 300_000
  {
    hide BlockOf, Groups;
    var gs := Groups(segs);
    var a := GroupsByNumber(segs, k);
    var b := GroupsByNumber(segs, l);
    MaxEndIs(gs[k]);
    var q :| 0 <= q < |gs[k]| && gs[k][q].end == MaxEnd(gs[k]);
    assert segs[a..a + |gs[k]|][q] == segs[a + q] && segs[b..b + |gs[l]|][0] == segs[b];
    if b <= a + q {
      NumbersGrow(segs, b, a + q);
    }
    LaterBlockFar(segs, a + q, b);
  }

  /** The list the loop sees is in start order. */
  lemma SortedByStart(segs: seq<Seg>)
    ensures ByStart(SortBy(segs, StartLe))
  {
    SortSorts(segs, StartLe);
  }
}
