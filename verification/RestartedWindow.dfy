/** Live windows and blocking reload after a restart: ids are dealt out anew in scan order, so the results for
    fresh stores carry over exactly where the scan lists the files in the order the ring will come to them. */
module RestartedWindow {
  import opened Bytes
  import opened RecordFormat
  import opened PoolScan
  import opened PoolModel
  import opened IndexModel
  import opened Sorting
  import opened ChunkPoolClass
  import opened WriterModel
  import opened Recovery
  import opened RingHistory
  import opened Resume
  import opened LiveWindow

  /** When the ring comes to file `j`, counted so that the file in use is last. */
  function Turn(s: Store, j: nat): nat {
    if j <= s.writeIdx then |s.slots| + j else j
  }

  /** The scan lists the files in the order the ring will come to them. */
  ghost predicate InRingOrder(s: Store, now: Instant)
    requires |s.slots| == |s.files|
  {
    forall a, b :: 0 <= a < b < |ScanAll(s, now)| ==>
      Turn(s, ScanAll(s, now)[a].poolIdx) <= Turn(s, ScanAll(s, now)[b].poolIdx)
  }

  /** The same for one camera's records, from number `from` on: no record before them is in a file the ring comes
      to later. */
  ghost predicate CameraInOrder(s: Store, now: Instant, camera: seq<byte>, from: nat)
    requires |s.slots| == |s.files|
  {
    forall a, b :: 0 <= a < b < |ScanAll(s, now)| && b >= from
                   && ScanAll(s, now)[a].camera == camera == ScanAll(s, now)[b].camera ==>
      Turn(s, ScanAll(s, now)[a].poolIdx) <= Turn(s, ScanAll(s, now)[b].poolIdx)
  }

  /** No record of the camera has been recovered behind the first `k`. */
  ghost predicate NoneFrom(s: Store, now: Instant, camera: seq<byte>, k: nat)
    requires |s.slots| == |s.files|
  {
    forall c :: k <= c < |ScanAll(s, now)| ==> ScanAll(s, now)[c].camera != camera
  }

  /** None of the camera's records is in a file the ring comes to later than to that of the last one listed. */
  ghost predicate LastInOrder(s: Store, now: Instant, camera: seq<byte>)
    requires |s.slots| == |s.files|
  {
    forall k: nat :: NoneFrom(s, now, camera, k + 1) ==> CameraInOrder(s, now, camera, k)
  }

  lemma FileOfEach(s: Store)
    requires Valid(s)
    ensures s.writeIdx < |s.slots| == |s.files|
  {
  }

  // ---- the restarted run with other stamps ----

  /** The restarted run with the rotation stamps the recovered records would carry had they been written in that
      order; the system itself is untouched. */
  function Restamped(s: Store, now: Instant): (r: Run)
    requires Valid(s)
    ensures Valid(r.sys.store) && Sized(r) && |r.turns| == |s.slots|
  {
    var r := Start(s, now);
    r.(rotations := |s.slots| + s.writeIdx,
       hist := seq(|r.hist|, i requires 0 <= i < |r.hist| =>
                 r.hist[i].(gen := Turn(s, r.hist[i].meta.loc.poolIdx))))
  }

  /** `r'` is `r` with the stamps of ring order. */
  ghost predicate Restamps(r: Run, r': Run) {
    && r'.sys == r.sys && r'.turns == r.turns && r'.base == r.base && r'.previous == r.previous
    && r'.rotations == |r.sys.store.slots| + r.sys.store.writeIdx && |r'.hist| == |r.hist|
    && forall i :: 0 <= i < |r.hist| ==>
         r'.hist[i] == r.hist[i].(gen := Turn(r.sys.store, r.hist[i].meta.loc.poolIdx))
  }

  lemma RestampedShape(s: Store, now: Instant)
    requires Valid(s)
    ensures Restamps(Start(s, now), Restamped(s, now)) && Start(s, now).sys.store == s
  {
    hide Valid, ScanAll, Rebuild, HistoryOf;
  }

  lemma RestampHistory(r: Run, r': Run)
    requires Restamps(r, r') && Sized(r) && Sized(r') && History(r)
    ensures History(r')
  {
    hide PoolIdAfter, History;
    HistoryParts(r);
    forall i | 0 <= i < |r.hist| ensures r'.hist[i].meta.id == i && Placement(r', r'.hist[i]) {
      assert Placement(r, r.hist[i]);
    }
    hide Placement;
    HistoryWhole(r');
  }

  lemma HistoryParts(r: Run)
    requires Sized(r) && History(r)
    ensures r.sys.index.counter == |r.hist|
    ensures forall i :: 0 <= i < |r.hist| ==> r.hist[i].meta.id == i && Placement(r, r.hist[i])
    ensures forall i, k :: 0 <= i < k < |r.hist| && SamePass(r.hist[i], r.hist[k]) ==>
              End(r.hist[i]) <= r.hist[k].meta.loc.offset
  {
  }

  lemma HistoryWhole(r: Run)
    requires Sized(r) && r.sys.index.counter == |r.hist|
    requires forall i :: 0 <= i < |r.hist| ==> r.hist[i].meta.id == i && Placement(r, r.hist[i])
    requires forall i, k :: 0 <= i < k < |r.hist| && SamePass(r.hist[i], r.hist[k]) ==>
               End(r.hist[i]) <= r.hist[k].meta.loc.offset
    ensures History(r)
  {
  }

  lemma RestampLive(r: Run, r': Run)
    requires Restamps(r, r') && Valid(r.sys.store) && LiveIntact(r) && IndexLive(r)
    ensures LiveIntact(r') && IndexLive(r')
  {
    hide Valid, KeyLe, Sorted;
    assert forall i :: 0 <= i < |r.hist| ==> (Live(r', r'.hist[i]) <==> Live(r, r.hist[i]));
    assert forall i :: 0 <= i < |r.hist| && Intact(r.sys.store, r.hist[i]) ==> Intact(r.sys.store, r'.hist[i]);
  }

  lemma RestampIds(r: Run, r': Run)
    requires Restamps(r, r') && Ids(r)
    ensures Ids(r')
  {
    hide Valid, PoolIdAfter;
  }

  lemma RestampedInv(s: Store, now: Instant)
    requires Valid(s) && UsedAsScanned(s, now)
    ensures Inv(Restamped(s, now))
  {
    hide UsedAsScanned, Start, Restamped, Ids, History, LiveIntact, IndexLive, Restamps;
    StartInv(s, now);
    RestampedShape(s, now);
    var r, r' := Start(s, now), Restamped(s, now);
    InvIds(r);
    RestampIds(r, r');
    RestampHistory(r, r');
    RestampLive(r, r');
  }

  lemma StartHistory(s: Store, now: Instant)
    requires Valid(s)
    ensures var r := Start(s, now);
            && |r.hist| == |ScanAll(s, now)| && r.sys.index == Rebuild(ScanAll(s, now))
            && forall i: nat :: i < |r.hist| ==> r.hist[i].meta == ScannedMeta(ScanAll(s, now), i)
  {
    hide Valid, ScanAll, Rebuild;
  }

  lemma RestampedRing(s: Store, now: Instant)
    requires Valid(s) && UsedAsScanned(s, now)
    ensures Ring(Restamped(s, now)) && Remembers(Restamped(s, now), None) && Accounted(Restamped(s, now))
  {
    hide UsedAsScanned, ScanAll, Rebuild, KeyLe, Inv, Start, Restamped;
    FileOfEach(s);
    RestampedInv(s, now);
    RestampedShape(s, now);
    StartHistory(s, now);
    RebuildEntries(ScanAll(s, now));
    var r := Restamped(s, now);
    assert Valid(s);
    hide Valid;
    forall i: nat | i < |r.hist| ensures Indexed(r, i) {
      assert ScannedMeta(ScanAll(s, now), i) in r.sys.index.entries;
    }
    RestampedPlaces(s, now);
    forall i | 0 <= i < |r.hist| && Live(r, r.hist[i])
      ensures r.hist[i].gen == Pass(r, r.hist[i].meta.loc.poolIdx)
    {
    }
  }

  /** Where the recovered records are, which of them is whose, and how they are stamped. */
  lemma RestampedPlaces(s: Store, now: Instant)
    requires Valid(s) && UsedAsScanned(s, now)
    ensures var r := Restamped(s, now);
            && |r.hist| == |ScanAll(s, now)| && r.rotations == |s.slots| + s.writeIdx && r.sys.store == s
            && (|r.hist| > 0 ==> s.capacity >= RECORD_HEADER)
            && forall i: nat :: i < |r.hist| ==>
                 && r.hist[i].meta.camera == ScanAll(s, now)[i].camera && ScanAll(s, now)[i].poolIdx < |s.slots|
                 && r.hist[i].gen == Turn(s, ScanAll(s, now)[i].poolIdx)
                 && s.writeIdx < r.hist[i].gen <= |s.slots| + s.writeIdx
  {
    hide UsedAsScanned, ScanAll, Rebuild, KeyLe, Inv, Start, Restamped, PoolIdAfter;
    FileOfEach(s);
    RestampedInv(s, now);
    RestampedShape(s, now);
    StartHistory(s, now);
    var r := Restamped(s, now);
    HistoryPlaced(r);
    assert Valid(s);
    forall i: nat | i < |r.hist| ensures r.hist[i].meta.loc.poolIdx == ScanAll(s, now)[i].poolIdx < |s.slots| {
      assert Placement(r, r.hist[i]);
    }
    if |r.hist| > 0 {
      assert Placement(r, r.hist[0]);
    }
  }

  lemma HistoryPlaced(r: Run)
    requires Inv(r)
    ensures Valid(r.sys.store) && Sized(r) && forall i :: 0 <= i < |r.hist| ==> Placement(r, r.hist[i])
  {
    InvIds(r);
    hide LiveIntact, IndexLive, Ids;
  }

  lemma {:induction false} RebuildDistinct(records: seq<Scanned>)
    ensures AllPairs(Rebuild(records).entries, DifferentIds)
  {
    hide KeyLe, InsertBy;
    if records == [] {
    } else {
      var init, x := records[..|records| - 1], records[|records| - 1];
      RebuildDistinct(init);
      RebuildEntries(init);
      InsertKeepsPairs(Rebuild(init).entries, ScannedMeta(records, |records| - 1), KeyLe, DifferentIds);
    }
  }

  /** Two runs that differ in their stamps only. */
  ghost predicate Alike(a: Run, b: Run) {
    && a.sys == b.sys && |a.hist| == |b.hist|
    && forall i :: 0 <= i < |a.hist| ==> a.hist[i].meta == b.hist[i].meta
  }

  lemma StepAlike(a: Run, b: Run, op: Op)
    requires Valid(a.sys.store) && Sized(a) && Sized(b) && Alike(a, b)
    ensures Alike(RunStep(a, op), RunStep(b, op))
  {
    hide Valid, EncodeRecord, PoolHeader, Patch, Evict, Insert;
  }

  lemma {:induction false} RunAlike(a: Run, b: Run, ops: seq<Op>)
    requires Valid(a.sys.store) && Sized(a) && Sized(b) && Alike(a, b)
    ensures Alike(RunAll(a, ops), RunAll(b, ops))
  {
    hide RunStep, Valid, Sized, Alike;
    AlikeSystem(a, b);
    if ops == [] {
    } else {
      RunAlike(a, b, ops[..|ops| - 1]);
      StepAlike(RunAll(a, ops[..|ops| - 1]), RunAll(b, ops[..|ops| - 1]), ops[|ops| - 1]);
    }
  }

  lemma RestartAlike(s: Store, now: Instant, ops: seq<Op>)
    requires Valid(s)
    ensures Alike(RunAll(Start(s, now), ops), RunAll(Restamped(s, now), ops))
  {
    hide Start, Restamped, Valid;
    RestampedShape(s, now);
    RunAlike(Start(s, now), Restamped(s, now), ops);
  }

  lemma AlikeIndexed(a: Run, b: Run)
    requires Alike(a, b)
    ensures forall i: nat :: Indexed(a, i) <==> Indexed(b, i)
  {
  }

  // ---- turning the ring ----

  /** A request that fills a file, served without failures. */
  function Filler(capacity: nat, camera: seq<byte>): (op: Op)
    requires capacity >= RECORD_HEADER
    ensures RecordSize(op.req) == capacity && Succeeds(capacity, op) && op.req.camera == camera
  {
    Op(Request(camera, 0, 0, Zeros(capacity - RECORD_HEADER)), Env(0, Done, Done))
  }

  predicate AllAre(ops: seq<Op>, op: Op) {
    forall i :: 0 <= i < |ops| ==> ops[i] == op
  }

  /** Such requests turn the ring by any number of files. */
  lemma {:induction false} TurnBy(r: Run, op: Op, k: nat) returns (ops: seq<Op>)
    requires Valid(r.sys.store) && Sized(r)
    requires RecordSize(op.req) == r.sys.store.capacity && Succeeds(r.sys.store.capacity, op)
    ensures AllAre(ops, op) && RunAll(r, ops).rotations == r.rotations + k
  {
    hide RunStep, Valid, Sized;
    ops := [];
    if k == 0 {
    } else {
      ops := TurnBy(r, op, k - 1);
      RunExtends(r, ops);
      FileOfEach(RunAll(r, ops).sys.store);
      if !Full(RunAll(r, ops).sys.store, RecordSize(op.req)) {
        StepStays(RunAll(r, ops), op);
        assert (ops + [op])[..|ops|] == ops;
        ops := ops + [op];
      }
      StepTurns(RunAll(r, ops), op);
      assert (ops + [op])[..|ops|] == ops;
      ops := ops + [op];
    }
  }

  lemma {:induction false} LaterCamera(r: Run, ops: seq<Op>, op: Op)
    requires Valid(r.sys.store) && Sized(r) && AllAre(ops, op)
    ensures forall i :: |r.hist| <= i < |RunAll(r, ops).hist| ==> RunAll(r, ops).hist[i].meta.camera == op.req.camera
  {
    hide RunStep, Valid, Sized;
    if ops == [] {
    } else {
      LaterCamera(r, ops[..|ops| - 1], op);
      StepAccepts(RunAll(r, ops[..|ops| - 1]), op);
    }
  }

  /** Some later run forgets exactly the recovered records in the files the ring comes to up to that of record
      `b`, and accepts records of one other camera only. */
  lemma ForgetsUpTo(s: Store, now: Instant, camera: seq<byte>, b: nat) returns (ops: seq<Op>)
    requires Valid(s) && UsedAsScanned(s, now) && b < |ScanAll(s, now)|
    ensures var scan, r := ScanAll(s, now), RunAll(Start(s, now), ops);
            && |r.hist| >= |scan|
            && (forall i: nat :: i < |scan| ==> r.hist[i].meta.camera == scan[i].camera && r.hist[i].meta.id == i)
            && (forall i: nat :: i < |scan| ==>
                  (Indexed(r, i) <==> Turn(s, scan[i].poolIdx) > Turn(s, scan[b].poolIdx)))
            && (forall i: nat :: |scan| <= i < |r.hist| ==> r.hist[i].meta.camera == camera)
  {
    hide Start, Restamped, RunAll, UsedAsScanned, ScanAll, Valid, Inv, Remembers, Cut, Indexed, Accounted, LiveInPass,
      Turn, Filler;
    FileOfEach(s);
    var r0 := Restamped(s, now);
    RestampedRing(s, now);
    RestampedPlaces(s, now);
    var op := Filler(s.capacity, camera);
    RestampedShape(s, now);
    ops := TurnBy(r0, op, r0.hist[b].gen - s.writeIdx);
    RestartAlike(s, now, ops);
    AlikeIndexed(RunAll(Start(s, now), ops), RunAll(r0, ops));
    NoCut(r0, ops);
    RunAllRing(r0, ops);
    RunExtends(r0, ops);
    LaterCamera(r0, ops, op);
    HistoryIds(RunAll(r0, ops));
    var r := RunAll(r0, ops);
    assert Remembers(r, None);
    forall i: nat | i < |ScanAll(s, now)|
      ensures Indexed(r, i) <==> Turn(s, ScanAll(s, now)[i].poolIdx) > Turn(s, ScanAll(s, now)[b].poolIdx)
    {
      assert r.hist[i] == r0.hist[i];
      RemembersAt(r, i);
    }
  }

  lemma RemembersAt(r: Run, i: nat)
    requires Remembers(r, None) && i < |r.hist|
    ensures Indexed(r, i) <==> r.hist[i].gen >= Oldest(r)
  {
    assert Indexed(r, i) <==> Remembered(r, None, i);
  }

  // ---- what holds after a restart, and exactly when ----

  /** After a restart the indexed ids stay a suffix of those dealt out, over every later run, if and only if the
      scan listed the files in the order the ring comes to them. */
  lemma RestartedSuffixIff(s: Store, now: Instant)
    requires Valid(s) && UsedAsScanned(s, now)
    ensures (forall ops :: SuffixIndexed(RunAll(Start(s, now), ops))) <==> InRingOrder(s, now)
  {
    hide Start, Restamped, RunAll, UsedAsScanned, Valid, Indexed, ScanAll, Turn;
    FileOfEach(s);
    if InRingOrder(s, now) {
      forall ops ensures SuffixIndexed(RunAll(Start(s, now), ops)) {
        RestartedSuffix(s, now, ops);
      }
    } else {
      var a, b :| 0 <= a < b < |ScanAll(s, now)|
                  && Turn(s, ScanAll(s, now)[a].poolIdx) > Turn(s, ScanAll(s, now)[b].poolIdx);
      var ops := ForgetsUpTo(s, now, [], b);
      var r := RunAll(Start(s, now), ops);
      assert Indexed(r, a) && !Indexed(r, b);
      assert !SuffixIndexed(r);
    }
  }

  lemma RestartedSuffix(s: Store, now: Instant, ops: seq<Op>)
    requires Valid(s) && UsedAsScanned(s, now) && InRingOrder(s, now)
    ensures SuffixIndexed(RunAll(Start(s, now), ops))
  {
    hide Start, Restamped, RunAll, UsedAsScanned, Valid, Indexed, ScanAll, Inv, LiveInPass, Accounted, Remembers;
    FileOfEach(s);
    var r0 := Restamped(s, now);
    RestampedRing(s, now);
    RestampedPlaces(s, now);
    LaterGens(r0, ops);
    RunAllRing(r0, ops);
    RunExtends(r0, ops);
    assert forall i :: 0 <= i < |r0.hist| ==> RunAll(r0, ops).hist[i] == r0.hist[i];
    RingSuffix(RunAll(r0, ops));
    RestartAlike(s, now, ops);
    AlikeIndexed(RunAll(Start(s, now), ops), RunAll(r0, ops));
  }

  lemma RestampedRise(s: Store, now: Instant, camera: seq<byte>, from: nat)
    requires Valid(s) && UsedAsScanned(s, now) && CameraInOrder(s, now, camera, from)
    ensures GensRise(Restamped(s, now).hist, camera, from)
  {
    hide Restamped, UsedAsScanned, Valid, ScanAll, Turn;
    FileOfEach(s);
    RestampedPlaces(s, now);
  }

  /** Once a segment with id `msn` or higher has been listed, a blocking request for `msn` never waits again,
      whatever the run. */
  ghost predicate NeverBlocksTwice(s: Store, now: Instant, camera: seq<byte>)
    requires Valid(s)
  {
    forall ops, more, msn: nat, seen ::
      seen in ForCamera(RunAll(Start(s, now), ops).sys.index, camera) && seen.id >= msn ==>
        !Blocks(ForCamera(RunAll(Start(s, now), ops + more).sys.index, camera), msn)
  }

  /** After a restart that is so if and only if none of the camera's records lies in a file the ring comes to later
      than to that of the last record the scan lists for it. */
  lemma NeverBlocksTwiceIff(s: Store, now: Instant, camera: seq<byte>)
    requires Valid(s) && UsedAsScanned(s, now)
    ensures NeverBlocksTwice(s, now, camera) <==> LastInOrder(s, now, camera)
  {
    hide Start, RunAll, UsedAsScanned, Valid, ForCamera, ScanAll, CameraInOrder, Blocks;
    FileOfEach(s);
    if LastInOrder(s, now, camera) {
      forall ops, more, msn: nat, seen |
        seen in ForCamera(RunAll(Start(s, now), ops).sys.index, camera) && seen.id >= msn
        ensures !Blocks(ForCamera(RunAll(Start(s, now), ops + more).sys.index, camera), msn)
      {
        RestartedNeverBlocks(s, now, ops, more, camera, msn, seen);
      }
    } else {
      var k: nat :| NoneFrom(s, now, camera, k + 1) && !CameraInOrder(s, now, camera, k);
      BlocksTwice(s, now, camera, k);
    }
  }

  lemma RestartedNeverBlocks(s: Store, now: Instant, ops: seq<Op>, more: seq<Op>, camera: seq<byte>,
                             msn: nat, seen: Meta)
    requires Valid(s) && UsedAsScanned(s, now) && LastInOrder(s, now, camera)
    requires seen in ForCamera(RunAll(Start(s, now), ops).sys.index, camera) && seen.id >= msn
    ensures !Blocks(ForCamera(RunAll(Start(s, now), ops + more).sys.index, camera), msn)
  {
    hide Start, Restamped, RunAll, Inv, LiveInPass, Accounted, Remembers, ForCamera, UsedAsScanned, Blocks, Valid,
      Sized, ScanAll, CameraInOrder, NoneFrom, GensRise;
    FileOfEach(s);
    var r0, r := Restamped(s, now), RunAll(Restamped(s, now), ops);
    RestampedRing(s, now);
    RestampedPlaces(s, now);
    var from := LastOf(s, now, camera);
    RestampedRise(s, now, camera, from);
    RestartAlike(s, now, ops);
    RestartAlike(s, now, ops + more);
    RestampedShape(s, now);
    RunAllConcat(r0, ops, more);
    RunAllRing(r0, ops);
    RunExtends(r0, ops);
    RunGensRise(r0, ops, camera, from);
    ListedOf(r, camera, seen);
    if seen.id < from {
      assert r.hist[from] == r0.hist[from];
    }
    SeenNeverBlocks(r, more, camera, from, msn, seen);
  }

  lemma ListedOf(r: Run, camera: seq<byte>, m: Meta)
    requires Inv(r) && m in ForCamera(r.sys.index, camera)
    ensures m.id < |r.hist| && r.hist[m.id].meta == m && m.camera == camera
  {
    assert IndexLive(r);
    hide Inv;
  }

  lemma LastOf(s: Store, now: Instant, camera: seq<byte>) returns (from: nat)
    requires |s.slots| == |s.files| && LastInOrder(s, now, camera)
    ensures CameraInOrder(s, now, camera, from)
    ensures from == 0 || (from < |ScanAll(s, now)| && ScanAll(s, now)[from].camera == camera)
  {
    hide CameraInOrder;
    from := |ScanAll(s, now)|;
    while from > 0 && ScanAll(s, now)[from - 1].camera != camera
      invariant from <= |ScanAll(s, now)| && NoneFrom(s, now, camera, from)
    {
      from := from - 1;
    }
    if from > 0 {
      from := from - 1;
    } else {
      assert NoneFrom(s, now, camera, 0 + 1);
    }
  }

  lemma BlocksTwice(s: Store, now: Instant, camera: seq<byte>, k: nat)
    requires Valid(s) && UsedAsScanned(s, now)
    requires NoneFrom(s, now, camera, k + 1) && !CameraInOrder(s, now, camera, k)
    ensures !NeverBlocksTwice(s, now, camera)
  {
    hide Start, RunAll, UsedAsScanned, Valid, ScanAll, Turn, Inv, Indexed, Rebuild, Filter;
    FileOfEach(s);
    var scan := ScanAll(s, now);
    var a, b :| 0 <= a < b < |scan| && b >= k && scan[a].camera == camera == scan[b].camera
                && Turn(s, scan[a].poolIdx) > Turn(s, scan[b].poolIdx);
    var more := ForgetsUpTo(s, now, camera + [0], b);
    StartHistory(s, now);
    RebuildEntries(scan);
    StartInv(s, now);
    var r0, r := Start(s, now), RunAll(Start(s, now), more);
    RunAllInv(r0, more);
    assert RunAll(r0, []) == r0 by {
      EmptyRun(r0);
    }
    var seen := r0.hist[b].meta;
    assert seen in ForCamera(r0.sys.index, camera);
    assert [] + more == more;
    OnlyOlderListed(r, camera, a, b, |scan|);
    assert Blocks(ForCamera(RunAll(r0, [] + more).sys.index, camera), b);
  }

  lemma EmptyRun(r: Run)
    requires Valid(r.sys.store) && Sized(r)
    ensures RunAll(r, []) == r
  {
  }

  lemma OnlyOlderListed(r: Run, camera: seq<byte>, a: nat, b: nat, n: nat)
    requires Inv(r) && a < b < n <= |r.hist| && Indexed(r, a) && !Indexed(r, b) && r.hist[a].meta.camera == camera
    requires forall i: nat :: b < i < |r.hist| ==> r.hist[i].meta.camera != camera
    ensures Blocks(ForCamera(r.sys.index, camera), b)
  {
    assert IndexLive(r);
    hide Inv, KeyLe;
    var list := ForCamera(r.sys.index, camera);
    assert r.hist[a].meta in list;
    forall m | m in list ensures m.id < b {
      assert Indexed(r, m.id);
    }
  }

  /** As long as the camera's records, recovered ones included, start in order: after a restart that lists its
      records in ring order, the window is the newest part of its list and MEDIA-SEQUENCE never decreases. */
  lemma RestartedWindowMovesOn(s: Store, now: Instant, ops: seq<Op>, more: seq<Op>, camera: seq<byte>)
    requires Valid(s) && UsedAsScanned(s, now) && CameraInOrder(s, now, camera, 0)
    requires StartsOrdered(RunAll(Start(s, now), ops + more).hist, camera)
    ensures var r, r' := RunAll(Start(s, now), ops), RunAll(Start(s, now), ops + more);
            WindowMovesOn(r', camera, ForCamera(r.sys.index, camera), ForCamera(r'.sys.index, camera))
  {
    hide Start, Restamped, RunAll, Accounted, Remembers, LiveInPass, ForCamera, CameraInOrder, UsedAsScanned,
      WindowMovesOn, AllPairs, Inv, ScanAll, Rebuild, StartsOrdered, GensRise, Alike;
    FileOfEach(s);
    RestampedRing(s, now);
    RestampedShape(s, now);
    RestampedRise(s, now, camera, 0);
    StartHistory(s, now);
    RebuildDistinct(ScanAll(s, now));
    var r := Restamped(s, now);
    RestartAlike(s, now, ops);
    RestartAlike(s, now, ops + more);
    AlikeWindow(RunAll(Start(s, now), ops + more), RunAll(r, ops + more), camera);
    AlikeSystem(RunAll(Start(s, now), ops), RunAll(r, ops));
    RunAllConcat(r, ops, more);
    RunAllRing(r, ops);
    RunGensRise(r, ops, camera, 0);
    RunDistinct(r, ops);
    WindowOverRun(RunAll(r, ops), more, camera);
  }

  lemma AlikeSystem(a: Run, b: Run)
    requires Alike(a, b)
    ensures a.sys == b.sys
  {
  }

  lemma AlikeWindow(a: Run, b: Run, camera: seq<byte>)
    requires Alike(a, b)
    ensures a.sys == b.sys && (StartsOrdered(a.hist, camera) ==> StartsOrdered(b.hist, camera))
    ensures forall older, newer :: WindowMovesOn(b, camera, older, newer) ==> WindowMovesOn(a, camera, older, newer)
  {
    hide Window;
  }

  // ---- time order ----

  /** Strictly in time order, segments that start together in the order of their ids; so none is listed twice. */
  ghost predicate InTimeOrder(segs: seq<Meta>) {
    forall a, b :: 0 <= a < b < |segs| ==>
      segs[a].start < segs[b].start || (segs[a].start == segs[b].start && segs[a].id < segs[b].id)
  }

  lemma DistinctInTimeOrder(segs: seq<Meta>)
    requires Chronological(segs) && AllPairs(segs, DifferentIds)
    ensures InTimeOrder(segs)
  {
    assert forall a, b :: 0 <= a < b < |segs| ==> DifferentIds(segs[a], segs[b]);
  }

  /** After a restart from any scanned store and any run, in whatever order segments arrive and files were scanned:
      a camera's list is its indexed segments, a range lookup those recording during the range, both in time
      order. */
  lemma ListedInTimeOrder(s: Store, now: Instant, ops: seq<Op>, camera: seq<byte>, from: Instant, to: Instant)
    requires Valid(s) && UsedAsScanned(s, now)
    ensures var ix := RunAll(Start(s, now), ops).sys.index;
            && ListsAll(ix.entries, camera, ForCamera(ix, camera)) && InTimeOrder(ForCamera(ix, camera))
            && ListsRange(ix.entries, camera, from, to, InRange(ix, camera, from, to))
            && InTimeOrder(InRange(ix, camera, from, to))
  {
    hide UsedAsScanned, Start, RunAll, Inv, ScanAll, Rebuild, KeyLe, InTimeOrder, Chronological, AllPairs, DifferentIds;
    StartInv(s, now);
    StartHistory(s, now);
    RebuildDistinct(ScanAll(s, now));
    RunAllInv(Start(s, now), ops);
    RunDistinct(Start(s, now), ops);
    var r := RunAll(Start(s, now), ops);
    InKeyOrder(r);
    ForCameraListsAll(r.sys.index, camera);
    InRangeListsRange(r.sys.index, camera, from, to);
    FilterKeepsPairs(r.sys.index.entries, (m: Meta) => m.camera == camera);
    FilterKeepsPairs(r.sys.index.entries, (m: Meta) => m.camera == camera && m.start < to && m.end > from);
    DistinctInTimeOrder(ForCamera(r.sys.index, camera));
    DistinctInTimeOrder(InRange(r.sys.index, camera, from, to));
  }

  lemma InKeyOrder(r: Run)
    requires Inv(r)
    ensures Sorted(r.sys.index.entries, KeyLe)
  {
    assert IndexLive(r);
  }

  // ---- when a restart is in ring order ----

  /** The file the scan finds a record in, and the order of two of them. */
  lemma ScannedInOrder(r: Run, o: Store, now: Instant, a: nat, b: nat)
    requires Reopened(r, o, now) && a < b < |ScanAll(o, now)|
    ensures var x, y := ScanAll(o, now)[a], ScanAll(o, now)[b];
            && x.poolIdx < |r.turns| && y.poolIdx < |r.turns|
            && ReachedFile(r, x.poolIdx) && ReachedFile(r, y.poolIdx)
            && DiskId(r.rotations, r.sys.store.writeIdx, |r.turns|, x.poolIdx)
               <= DiskId(r.rotations, r.sys.store.writeIdx, |r.turns|, y.poolIdx)
  {
    hide Reopened, ScanAll, ReachedFile, DiskId;
    ScannedRecordFile(r, o, now, a);
    ScannedRecordFile(r, o, now, b);
    ReopenedSizes(r, o, now);
    ScanSorted(o, now);
    assert ScanLe(ScanAll(o, now)[a], ScanAll(o, now)[b]);
  }

  lemma ReopenedSizes(r: Run, o: Store, now: Instant)
    requires Reopened(r, o, now)
    ensures |o.slots| == |o.files| == |r.turns| == |r.sys.store.slots|
  {
  }

  /** The resumed file is the one `open` picks. */
  ghost predicate Resumed(r: Run, o: Store) {
    o.writeIdx == if |r.turns| == 1 || r.sys.store.writeIdx != 0 then r.sys.store.writeIdx else |r.turns| - 1
  }

  lemma RingOrderHolds(r: Run, o: Store, now: Instant)
    requires Reopened(r, o, now) && Resumed(r, o)
    requires |o.slots| == |o.files|
    requires r.rotations < |r.turns| || r.sys.store.writeIdx == 0 || r.sys.store.writeIdx == |r.turns| - 1
    ensures InRingOrder(o, now)
  {
    RingPosition(r, o, now);
    ReopenedSizes(r, o, now);
    hide Reopened, ScanAll;
    forall a: nat, b: nat | a < b < |ScanAll(o, now)|
      ensures Turn(o, ScanAll(o, now)[a].poolIdx) <= Turn(o, ScanAll(o, now)[b].poolIdx)
    {
      ScannedInOrder(r, o, now, a, b);
    }
  }

  lemma RingOrderFails(r: Run, o: Store, now: Instant)
    requires Reopened(r, o, now) && Resumed(r, o) && |o.slots| == |o.files|
    requires r.rotations >= |r.turns| && 0 < r.sys.store.writeIdx < |r.turns| - 1
    ensures !InRingOrder(o, now)
  {
    RingPosition(r, o, now);
    ReopenedSizes(r, o, now);
    hide Reopened, ScanAll;
    var a := FileInScan(r, o, now, 0);
    var b := FileInScan(r, o, now, r.sys.store.writeIdx + 1);
    if b <= a {
      ScannedInOrder(r, o, now, b, a);
      assert false;
    }
    assert Turn(o, ScanAll(o, now)[a].poolIdx) > Turn(o, ScanAll(o, now)[b].poolIdx);
  }

  /** After any run of a fresh store in which no write fails, a restart is in ring order if and only if the ring
      has not come round yet or stands at its first or last file. */
  lemma RingOrderIff(n: nat, capacity: nat, now: Instant, ops: seq<Op>, env: Env)
    requires 0 < n < U64 && HeadersSucceed(ops) && WritesSucceed(ops)
    requires RunAll(Fresh(n, capacity, now), ops).rotations + n < U64
    ensures var r := RunAll(Fresh(n, capacity, now), ops);
            var s := r.sys.store;
            && FullLength(DiskOf(s), s.capacity) && Open(DiskOf(s), s.capacity, env).Some?
            && var o := Open(DiskOf(s), s.capacity, env).value;
               && Valid(o) && UsedAsScanned(o, env.now)
               && (InRingOrder(o, env.now) <==>
                   r.rotations < n || r.rotations % n == 0 || r.rotations % n == n - 1)
  {
    hide Fresh, RunAll, Open, ScanAll, UsedAsScanned, HeadersSucceed, WritesSucceed, InRingOrder, Reopened;
    RunReopened(n, capacity, now, ops, env);
    var r := RunAll(Fresh(n, capacity, now), ops);
    var o := Open(DiskOf(r.sys.store), r.sys.store.capacity, env).value;
    ReopenedSizes(r, o, env.now);
    RingPosition(r, o, env.now);
    ReopenedParts(r, o, env.now);
    LatestFile(r, env);
    Reopen(r.sys.store, env);
    if r.rotations < n || r.sys.store.writeIdx == 0 || r.sys.store.writeIdx == n - 1 {
      RingOrderHolds(r, o, env.now);
    } else {
      RingOrderFails(r, o, env.now);
    }
  }

  lemma ReopenedParts(r: Run, o: Store, now: Instant)
    requires Reopened(r, o, now)
    ensures Valid(o) && Valid(r.sys.store) && Sized(r) && IdsFollow(r)
  {
    InvIds(r);
  }
}
