/** One camera's view of the index over whole runs: the live window, blocking reload, and when a numbered
    manifest names the right segments. */
module LiveWindow {
  import opened Bytes
  import opened RecordFormat
  import opened PoolModel
  import opened IndexModel
  import opened Sorting
  import opened WriterModel
  import opened Recovery
  import opened RingHistory

  const LIVE_WINDOW: nat := 10

  /** The last ten segments of a camera's list. */
  function Window(list: seq<Meta>): (w: seq<Meta>)
    ensures |w| == (if |list| < 10 then |list| else 10)
  {
    if |list| < LIVE_WINDOW then list else list[|list| - LIVE_WINDOW..]
  }

  /** A request for segment `msn` must wait. */
  predicate Blocks(list: seq<Meta>, msn: nat) {
    list != [] && forall m :: m in list ==> m.id < msn
  }

  predicate IdsIncrease(list: seq<Meta>) {
    forall a, b :: 0 <= a < b < |list| ==> list[a].id < list[b].id
  }

  // ---- entries have different ids ----

  predicate DifferentIds(a: Meta, b: Meta) {
    a.id != b.id
  }

  lemma {:induction false} FilterKeepsPairs(s: seq<Meta>, p: Meta -> bool)
    requires AllPairs(s, DifferentIds)
    ensures AllPairs(Filter(s, p), DifferentIds)
  {
    if s == [] {
    } else {
      FilterKeepsPairs(s[1..], p);
      var rest := Filter(s[1..], p);
      assert forall i :: 0 <= i < |rest| ==> rest[i] in rest;
    }
  }

  lemma InsertedDistinct(r: Run, q: Request, io: Io)
    requires Inv(r) && !Full(r.sys.store, RecordSize(q)) && Valid(r.sys.store) && Sized(r)
    requires AllPairs(r.sys.index.entries, DifferentIds)
    ensures AllPairs(Recorded(r, q, io).sys.index.entries, DifferentIds)
  {
    hide KeyLe, EncodeRecord, LiveIntact, Placement, Ids;
    if io.Done? {
      InsertKeepsPairs(r.sys.index.entries, Recorded(r, q, Done).hist[|r.hist|].meta, KeyLe, DifferentIds);
    }
  }

  lemma StepDistinct(r: Run, op: Op)
    requires Inv(r) && AllPairs(r.sys.index.entries, DifferentIds)
    ensures Valid(r.sys.store) && Sized(r) && AllPairs(RunStep(r, op).sys.index.entries, DifferentIds)
  {
    InvIds(r);
    if Full(r.sys.store, RecordSize(op.req)) {
      EvictedInv(r);
      FilterKeepsPairs(r.sys.index.entries, (m: Meta) => m.loc.poolIdx != NextIdx(r.sys.store));
      RotatedInv(Evicted(r), op.env.now, op.env.header);
      hide Inv, WriteRecord, PoolHeader, IndexModel.Insert;
      if RecordSize(op.req) <= r.sys.store.capacity {
        InsertedDistinct(Rotated(Evicted(r), op.env.now, op.env.header), op.req, op.env.record);
      }
    } else {
      InsertedDistinct(r, op.req, op.env.record);
      hide Inv, WriteRecord, PoolHeader, IndexModel.Insert;
    }
  }

  lemma {:induction false} RunDistinct(r: Run, ops: seq<Op>)
    requires Inv(r) && AllPairs(r.sys.index.entries, DifferentIds)
    ensures Valid(r.sys.store) && Sized(r) && AllPairs(RunAll(r, ops).sys.index.entries, DifferentIds)
  {
    InvIds(r);
    hide Inv, AllPairs, RunStep;
    if ops == [] {
    } else {
      RunAllInv(r, ops[..|ops| - 1]);
      RunDistinct(r, ops[..|ops| - 1]);
      StepDistinct(RunAll(r, ops[..|ops| - 1]), ops[|ops| - 1]);
    }
  }

  // ---- arrival order ----

  /** The camera's segments reach the writer in non-decreasing start order. */
  predicate ArriveByStart(ops: seq<Op>, camera: seq<byte>) {
    forall i, k :: 0 <= i < k < |ops| && ops[i].req.camera == camera == ops[k].req.camera ==>
      ops[i].req.start <= ops[k].req.start
  }

  predicate ArriveByEnd(ops: seq<Op>, camera: seq<byte>) {
    forall i, k :: 0 <= i < k < |ops| && ops[i].req.camera == camera == ops[k].req.camera ==>
      ops[i].req.end <= ops[k].req.end
  }

  /** Each of the camera's segments ends before the next starts. */
  predicate ArriveApart(ops: seq<Op>, camera: seq<byte>) {
    forall i, k :: 0 <= i < k < |ops| && ops[i].req.camera == camera == ops[k].req.camera ==>
      ops[i].req.end <= ops[k].req.start
  }

  ghost predicate StartsOrdered(hist: seq<Accepted>, camera: seq<byte>) {
    forall i, k :: 0 <= i < k < |hist| && hist[i].meta.camera == camera == hist[k].meta.camera ==>
      hist[i].meta.start <= hist[k].meta.start
  }

  ghost predicate EndsOrdered(hist: seq<Accepted>, camera: seq<byte>) {
    forall i, k :: 0 <= i < k < |hist| && hist[i].meta.camera == camera == hist[k].meta.camera ==>
      hist[i].meta.end <= hist[k].meta.end
  }

  ghost predicate NeverOverlap(hist: seq<Accepted>, camera: seq<byte>) {
    forall i, k :: 0 <= i < k < |hist| && hist[i].meta.camera == camera == hist[k].meta.camera ==>
      hist[i].meta.end <= hist[k].meta.start
  }

  predicate FromRequest(h: Accepted, q: Request) {
    h.meta.camera == q.camera && h.meta.start == q.start && h.meta.end == q.end
  }

  lemma StepAccepts(r: Run, op: Op)
    requires Valid(r.sys.store) && Sized(r)
    ensures var hist := RunStep(r, op).hist;
            hist == r.hist
            || (|hist| == |r.hist| + 1 && hist[..|r.hist|] == r.hist && FromRequest(hist[|r.hist|], op.req))
  {
    hide EncodeRecord, PoolHeader, IndexModel.Insert, IndexModel.Evict, Patch, Valid;
  }

  predicate Requested(h: Accepted, ops: seq<Op>) {
    exists k :: 0 <= k < |ops| && FromRequest(h, ops[k].req)
  }

  lemma RequestedLater(h: Accepted, ops: seq<Op>, n: nat)
    requires n <= |ops| && Requested(h, ops[..n])
    ensures Requested(h, ops)
  {
    var k :| 0 <= k < n && FromRequest(h, ops[..n][k].req);
    assert FromRequest(h, ops[k].req);
  }

  /** Every accepted record comes from a request, and the camera's records are ordered if its requests are. */
  ghost predicate Follows(hist: seq<Accepted>, ops: seq<Op>, camera: seq<byte>) {
    && (forall i :: 0 <= i < |hist| ==> Requested(hist[i], ops))
    && (ArriveByStart(ops, camera) ==> StartsOrdered(hist, camera))
    && (ArriveByEnd(ops, camera) ==> EndsOrdered(hist, camera))
    && (ArriveApart(ops, camera) ==> NeverOverlap(hist, camera))
  }

  lemma RequestedOrder(h: Accepted, ops: seq<Op>, n: nat, camera: seq<byte>)
    requires n < |ops| && Requested(h, ops[..n]) && h.meta.camera == camera == ops[n].req.camera
    ensures ArriveByStart(ops, camera) ==> h.meta.start <= ops[n].req.start
    ensures ArriveByEnd(ops, camera) ==> h.meta.end <= ops[n].req.end
    ensures ArriveApart(ops, camera) ==> h.meta.end <= ops[n].req.start
  {
    var k :| 0 <= k < n && FromRequest(h, ops[..n][k].req);
    assert ops[..n][k] == ops[k];
  }

  lemma ArrivePrefix(ops: seq<Op>, n: nat, camera: seq<byte>)
    requires n <= |ops|
    ensures ArriveByStart(ops, camera) ==> ArriveByStart(ops[..n], camera)
    ensures ArriveByEnd(ops, camera) ==> ArriveByEnd(ops[..n], camera)
    ensures ArriveApart(ops, camera) ==> ArriveApart(ops[..n], camera)
  {
  }

  lemma FollowsRefusal(hist: seq<Accepted>, ops: seq<Op>, camera: seq<byte>)
    requires ops != [] && Follows(hist, ops[..|ops| - 1], camera)
    ensures Follows(hist, ops, camera)
  {
    hide ArriveByStart, ArriveByEnd, ArriveApart, StartsOrdered, EndsOrdered, NeverOverlap, Requested;
    ArrivePrefix(ops, |ops| - 1, camera);
    forall i | 0 <= i < |hist| ensures Requested(hist[i], ops) {
      RequestedLater(hist[i], ops, |ops| - 1);
    }
  }

  lemma FollowsOne(before: seq<Accepted>, h: Accepted, ops: seq<Op>, camera: seq<byte>)
    requires ops != [] && Follows(before, ops, camera) && FromRequest(h, ops[|ops| - 1].req)
    requires Follows(before, ops[..|ops| - 1], camera)
    ensures Follows(before + [h], ops, camera)
  {
    hide ArriveByStart, ArriveByEnd, ArriveApart;
    assert Requested(h, ops);
    forall i | 0 <= i < |before| && before[i].meta.camera == camera == h.meta.camera
      ensures ArriveByStart(ops, camera) ==> before[i].meta.start <= h.meta.start
      ensures ArriveByEnd(ops, camera) ==> before[i].meta.end <= h.meta.end
      ensures ArriveApart(ops, camera) ==> before[i].meta.end <= h.meta.start
    {
      RequestedOrder(before[i], ops, |ops| - 1, camera);
    }
    hide Requested;
  }

  lemma NothingFollows(camera: seq<byte>)
    ensures Follows([], [], camera)
  {
  }

  lemma {:induction false} HistoryFollowsRequests(r: Run, ops: seq<Op>, camera: seq<byte>)
    requires Valid(r.sys.store) && Sized(r) && r.hist == []
    ensures Follows(RunAll(r, ops).hist, ops, camera)
  {
    hide RunStep, Valid, Sized, Follows;
    if ops == [] {
      NothingFollows(camera);
    } else {
      var n := |ops| - 1;
      HistoryFollowsRequests(r, ops[..n], camera);
      var before, hist := RunAll(r, ops[..n]).hist, RunAll(r, ops).hist;
      StepAccepts(RunAll(r, ops[..n]), ops[n]);
      FollowsRefusal(before, ops, camera);
      if hist != before {
        FollowsOne(before, hist[|before|], ops, camera);
        assert hist == before + [hist[|before|]];
      }
    }
  }

  // ---- the camera's list ----

  /** The camera's list: its indexed segments, oldest id first. */
  ghost predicate ListsCamera(r: Run, camera: seq<byte>, list: seq<Meta>) {
    && IdsIncrease(list)
    && (forall m :: m in list <==> Indexed(r, m.id) && m == r.hist[m.id].meta && m.camera == camera)
  }

  lemma SelectionIncreases(r: Run, camera: seq<byte>, p: Meta -> bool)
    requires Inv(r) && AllPairs(r.sys.index.entries, DifferentIds) && StartsOrdered(r.hist, camera)
    requires forall m :: p(m) ==> m.camera == camera
    ensures IdsIncrease(Filter(r.sys.index.entries, p))
  {
    var list := Filter(r.sys.index.entries, p);
    FilterKeepsSorted(r.sys.index.entries, p, KeyLe);
    FilterKeepsPairs(r.sys.index.entries, p);
    assert IndexLive(r) && History(r);
    hide Inv, LexLe, Placement, Filter;
    forall a, b | 0 <= a < b < |list| ensures list[a].id < list[b].id {
      assert list[a] in list && list[b] in list;
      assert KeyLe(list[a], list[b]) && DifferentIds(list[a], list[b]);
    }
  }

  lemma CameraList(r: Run, camera: seq<byte>)
    requires Inv(r) && AllPairs(r.sys.index.entries, DifferentIds) && StartsOrdered(r.hist, camera)
    ensures ListsCamera(r, camera, ForCamera(r.sys.index, camera))
  {
    SelectionIncreases(r, camera, (m: Meta) => m.camera == camera);
    assert IndexLive(r) && History(r);
    hide Inv, KeyLe, Placement;
  }

  lemma FreshRunFacts(n: nat, capacity: nat, now: Instant, ops: seq<Op>)
    requires 0 < n < U64
    ensures var r := RunAll(Fresh(n, capacity, now), ops);
            && Ring(r) && Accounted(r) && GensOrdered(r.hist) && SuffixIndexed(r)
            && AllPairs(r.sys.index.entries, DifferentIds)
    ensures Fresh(n, capacity, now).hist == []
  {
    FreshRing(n, capacity, now);
    FreshStart(n, capacity, now);
    hide Fresh, Remembers, Inv, RunAll, LiveInPass;
    RunAllRing(Fresh(n, capacity, now), ops);
    RunDistinct(Fresh(n, capacity, now), ops);
    LaterGens(Fresh(n, capacity, now), ops);
    RingSuffix(RunAll(Fresh(n, capacity, now), ops));
  }

  // ---- what a camera's list keeps ----

  /** From record `from` on, each of the camera's records belongs to no earlier pass than those before it. */
  ghost predicate GensRise(hist: seq<Accepted>, camera: seq<byte>, from: nat) {
    forall i, k :: 0 <= i < k < |hist| && k >= from && hist[i].meta.camera == camera == hist[k].meta.camera ==>
      hist[i].gen <= hist[k].gen
  }

  lemma RunGensRise(r: Run, ops: seq<Op>, camera: seq<byte>, from: nat)
    requires Inv(r) && GensRise(r.hist, camera, from)
    ensures Valid(r.sys.store) && Sized(r) && GensRise(RunAll(r, ops).hist, camera, from)
  {
    InvIds(r);
    hide Inv, RunAll, Valid, Sized;
    LaterGens(r, ops);
    RunExtends(r, ops);
    assert forall i :: 0 <= i < |r.hist| ==> RunAll(r, ops).hist[i] == r.hist[i];
  }

  /** So none of those records leaves the index before one accepted earlier. */
  lemma KeepsNewer(r: Run, camera: seq<byte>, from: nat, i: nat, k: nat)
    requires Accounted(r) && GensRise(r.hist, camera, from) && from <= k && i <= k < |r.hist| && Indexed(r, i)
    requires r.hist[i].meta.camera == camera == r.hist[k].meta.camera
    ensures Indexed(r, k)
  {
    hide Accounted, Indexed;
    if i < k {
      RememberedLonger(r, i, k);
    }
  }

  // ---- the live window over whole runs ----

  /** A strictly increasing list inside another is no longer than it. */
  lemma {:induction false} IncreasingFits(part: seq<Meta>, whole: seq<Meta>)
    requires IdsIncrease(part) && IdsIncrease(whole) && forall m :: m in part ==> m in whole
    ensures |part| <= |whole|
  {
    if part == [] {
    } else {
      var n := |part| - 1;
      assert part[n] in part;
      var q :| 0 <= q < |whole| && whole[q] == part[n];
      forall m | m in part[..n] ensures m in whole[..q] {
        var i :| 0 <= i < n && part[i] == m;
        assert part[i] in part;
        var k :| 0 <= k < |whole| && whole[k] == part[i];
      }
      IncreasingFits(part[..n], whole[..q]);
    }
  }

  lemma IdsAt(list: seq<Meta>, i: nat, j: nat)
    requires IdsIncrease(list) && i <= j < |list|
    ensures list[i].id <= list[j].id && (i < j ==> list[i].id < list[j].id)
  {
  }

  /** The window is the newest part of the list and ends with its largest id. */
  lemma WindowIsNewest(list: seq<Meta>)
    requires IdsIncrease(list) && list != []
    ensures var w := Window(list);
            && (forall m :: m in list ==> m.id <= w[|w| - 1].id)
            && (forall m :: m in list && m !in w ==> m.id < w[0].id)
  {
    hide IdsIncrease;
    var w := Window(list);
    var at := |list| - |w|;
    assert w[0] == list[at] && w[|w| - 1] == list[|list| - 1];
    forall m | m in list ensures m.id <= w[|w| - 1].id && (m !in w ==> m.id < w[0].id) {
      var i: nat :| i < |list| && list[i] == m;
      IdsAt(list, i, |list| - 1);
      if i >= at {
        assert w[i - at] == m;
      } else {
        IdsAt(list, i, at);
      }
    }
  }

  lemma BehindPosition(list: seq<Meta>, at: nat, m: Meta)
    requires IdsIncrease(list) && at < |list| && m in list && list[at].id < m.id
    ensures m in list[at + 1..]
  {
    var k :| 0 <= k < |list| && list[k] == m;
    assert k > at;
    assert list[at + 1..][k - (at + 1)] == m;
  }

  lemma WindowIncreases(list: seq<Meta>)
    requires IdsIncrease(list)
    ensures IdsIncrease(Window(list)) && forall m :: m in Window(list) ==> m in list && m.id >= Window(list)[0].id
  {
  }

  /** Two lists such that the second lost its oldest members and gained younger ones: its window does not start
      earlier. */
  lemma WindowsAdvance(older: seq<Meta>, newer: seq<Meta>)
    requires IdsIncrease(older) && IdsIncrease(newer) && older != [] && newer != []
    requires forall m, x :: m in older && x in newer && x.id <= m.id ==> m in newer && x in older
    ensures Window(older)[0].id <= Window(newer)[0].id
  {
    var w, w' := Window(older), Window(newer);
    var at := |newer| - |w'|;
    var b := newer[at];
    assert b == w'[0] && b in newer;
    if b.id < w[0].id {
      WindowIncreases(older);
      assert |w| == LIVE_WINDOW by {
        assert w[0] in older;
        assert b in older;
      }
      var rest := newer[at + 1..];
      assert IdsIncrease(rest);
      forall m | m in w ensures m in rest {
        assert m in newer;
        BehindPosition(newer, at, m);
      }
      IncreasingFits(w, rest);
      assert false;
    }
  }

  /** MEDIA-SEQUENCE, the id the window starts with, never decreases between two moments of a run at which the
      camera has segments, however many inserts and evictions lie between. */
  lemma WindowStartIncreases(r: Run, r': Run, camera: seq<byte>, older: seq<Meta>, newer: seq<Meta>)
    requires ListsCamera(r, camera, older) && ListsCamera(r', camera, newer) && older != [] && newer != []
    requires r.hist <= r'.hist && Accounted(r') && GensRise(r'.hist, camera, 0)
    requires forall i: nat :: i < |r.hist| && Indexed(r', i) ==> Indexed(r, i)
    ensures Window(older)[0].id <= Window(newer)[0].id
  {
    hide Accounted, GensRise;
    forall m, x | m in older && x in newer && x.id <= m.id ensures m in newer && x in older {
      assert Indexed(r, m.id) && Indexed(r', x.id);
      KeepsNewer(r', camera, 0, x.id, m.id);
    }
    WindowsAdvance(older, newer);
  }

  /** The window is the newest part of the list, and it starts no earlier than `older`'s. */
  ghost predicate WindowMovesOn(r: Run, camera: seq<byte>, older: seq<Meta>, newer: seq<Meta>) {
    && ListsCamera(r, camera, newer)
    && (newer != [] ==>
          && (forall m :: m in newer ==> m.id <= Window(newer)[|Window(newer)| - 1].id)
          && (forall m :: m in newer && m !in Window(newer) ==> m.id < Window(newer)[0].id))
    && (older != [] && newer != [] ==> Window(older)[0].id <= Window(newer)[0].id)
  }

  /** From any state in which the camera's records are stamped and start in order. */
  lemma WindowOverRun(r: Run, more: seq<Op>, camera: seq<byte>)
    requires Ring(r) && Accounted(r) && GensRise(r.hist, camera, 0)
    requires Valid(r.sys.store) && Sized(r) && AllPairs(r.sys.index.entries, DifferentIds)
    requires StartsOrdered(RunAll(r, more).hist, camera)
    ensures WindowMovesOn(RunAll(r, more), camera, ForCamera(r.sys.index, camera),
                          ForCamera(RunAll(r, more).sys.index, camera))
  {
    hide RunAll, Inv, LiveInPass, Accounted, GensRise, ForCamera, ListsCamera, Valid, Sized, AllPairs;
    RunGensRise(r, more, camera, 0);
    RunDistinct(r, more);
    RunAllRing(r, more);
    RunExtends(r, more);
    var r' := RunAll(r, more);
    StartsPrefix(r.hist, r'.hist, camera);
    hide StartsOrdered;
    CameraList(r, camera);
    CameraList(r', camera);
    if ForCamera(r'.sys.index, camera) != [] {
      ListIncreases(r', camera, ForCamera(r'.sys.index, camera));
      WindowIsNewest(ForCamera(r'.sys.index, camera));
      if ForCamera(r.sys.index, camera) != [] {
        WindowStartIncreases(r, r', camera, ForCamera(r.sys.index, camera), ForCamera(r'.sys.index, camera));
      }
    }
  }

  lemma StartsPrefix(a: seq<Accepted>, b: seq<Accepted>, camera: seq<byte>)
    requires a <= b && StartsOrdered(b, camera)
    ensures StartsOrdered(a, camera)
  {
    assert forall i :: 0 <= i < |a| ==> a[i] == b[i];
  }

  /** Over whole runs of a fresh store, when the camera's segments arrive in start order: the window is the
      newest part of the camera's list, and its first id never decreases while there is one. */
  lemma LiveWindowOverRuns(n: nat, capacity: nat, now: Instant, ops: seq<Op>, more: seq<Op>, camera: seq<byte>)
    requires 0 < n < U64 && ArriveByStart(ops + more, camera)
    ensures var r, r' := RunAll(Fresh(n, capacity, now), ops), RunAll(Fresh(n, capacity, now), ops + more);
            WindowMovesOn(r', camera, ForCamera(r.sys.index, camera), ForCamera(r'.sys.index, camera))
  {
    hide Fresh, RunAll, StartsOrdered, ArriveByStart, Ring, Inv, AllPairs, WindowMovesOn, Accounted, SuffixIndexed;
    var r0 := Fresh(n, capacity, now);
    FreshRunFacts(n, capacity, now, ops);
    HistoryFollowsRequests(r0, ops + more, camera);
    RunAllConcat(r0, ops, more);
    WindowOverRun(RunAll(r0, ops), more, camera);
  }

  lemma ListIncreases(r: Run, camera: seq<byte>, list: seq<Meta>)
    requires ListsCamera(r, camera, list)
    ensures IdsIncrease(list)
  {
  }

  /** Once a segment with id `msn` or higher was listed, a blocking request for `msn` never waits again,
      whatever is accepted, refused or evicted afterwards, in whatever order segments start. */
  lemma NeverBlocksAgain(n: nat, capacity: nat, now: Instant, ops: seq<Op>, more: seq<Op>, camera: seq<byte>,
                         msn: nat, seen: Meta)
    requires 0 < n < U64
    requires seen in ForCamera(RunAll(Fresh(n, capacity, now), ops).sys.index, camera) && seen.id >= msn
    ensures !Blocks(ForCamera(RunAll(Fresh(n, capacity, now), ops + more).sys.index, camera), msn)
  {
    hide Fresh, RunAll, Ring, AllPairs, ForCamera, Blocks, Accounted, SuffixIndexed;
    FreshRunFacts(n, capacity, now, ops);
    RunAllConcat(Fresh(n, capacity, now), ops, more);
    SeenNeverBlocks(RunAll(Fresh(n, capacity, now), ops), more, camera, 0, msn, seen);
  }

  /** From any state in which the camera's records are stamped in order from record `from` on, itself one of the
      camera's unless a later one was listed. */
  lemma SeenNeverBlocks(r: Run, more: seq<Op>, camera: seq<byte>, from: nat, msn: nat, seen: Meta)
    requires Ring(r) && Accounted(r) && GensRise(r.hist, camera, from) && Valid(r.sys.store) && Sized(r)
    requires seen in ForCamera(r.sys.index, camera) && seen.id >= msn
    requires seen.id >= from || (from < |r.hist| && r.hist[from].meta.camera == camera)
    ensures !Blocks(ForCamera(RunAll(r, more).sys.index, camera), msn)
  {
    hide RunAll, LiveInPass, ForCamera, Inv, Valid, Sized, Accounted, GensRise;
    RunAllRing(r, more);
    RunExtends(r, more);
    RunGensRise(r, more, camera, from);
    StillListed(r, RunAll(r, more), camera, from, seen);
  }

  lemma StillListed(r: Run, r': Run, camera: seq<byte>, from: nat, seen: Meta)
    requires Inv(r) && Inv(r') && r.hist <= r'.hist && seen in ForCamera(r.sys.index, camera)
    requires Accounted(r') && GensRise(r'.hist, camera, from)
    requires seen.id >= from || (from < |r.hist| && r.hist[from].meta.camera == camera)
    ensures ForCamera(r'.sys.index, camera) != [] ==>
              exists m :: m in ForCamera(r'.sys.index, camera) && m.id >= seen.id
  {
    assert IndexLive(r) && IndexLive(r');
    HistoryIds(r');
    hide Inv, KeyLe, Accounted, GensRise;
    var list := ForCamera(r'.sys.index, camera);
    if list != [] {
      var m := list[0];
      assert m in list && Indexed(r', m.id);
      if m.id < seen.id {
        var k := if seen.id >= from then seen.id else from;
        assert r'.hist[k] == r.hist[k];
        KeepsNewer(r', camera, from, m.id, k);
        assert r'.hist[k].meta in list;
      }
    }
  }

  lemma HistoryIds(r: Run)
    requires Inv(r)
    ensures forall i: nat :: i < |r.hist| ==> r.hist[i].meta.id == i
  {
  }
}
