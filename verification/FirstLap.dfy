/** Restart in the first lap, that is, with fewer than n rotations so far: the scan then returns exactly what was
    accepted, in order, under the same ids. */
module FirstLap {
  import opened Bytes
  import opened RecordFormat
  import opened PoolScan
  import opened PoolModel
  import opened Sorting
  import opened ChunkPoolClass
  import opened WriterModel
  import opened Recovery
  import opened ScanRoundTrip
  import opened RingHistory
  import opened Resume
  import opened Restart

  function RecallAll(hist: seq<Accepted>): (r: seq<Scanned>)
    ensures |r| == |hist|
  {
    seq(|hist|, i requires 0 <= i < |hist| => Recall(hist[i]))
  }

  /** In the first lap everything behind the used part of a file is still blank. */
  ghost predicate BlankTail(r: Run)
    requires Valid(r.sys.store)
  {
    var s := r.sys.store;
    r.rotations < |s.slots| ==>
      forall j: nat {:trigger s.slots[j]} {:trigger s.files[j]} :: j < |s.slots| ==>
        forall i :: POOL_HEADER + s.slots[j].used <= i < |s.files[j]| ==> s.files[j][i] == 0
  }

  lemma StepBlank(r: Run, op: Op)
    requires Valid(r.sys.store) && Sized(r) && IdsFollow(r) && Filled(r) && BlankTail(r)
    requires op.env.header.Done? && op.env.record.Done?
    ensures BlankTail(RunStep(r, op))
  {
    if RecordSize(op.req) > r.sys.store.capacity {
      StepRefuses(r, op);
      hide RunStep, IndexModel.Evict, ReadPoolId;
    } else {
      NextIdxCases(r.sys.store);
      StepShape(r, op);
      hide ReadPoolId, MemoryId, DiskId, RunStep, Full, NextIdx;
    }
  }

  /** In the first lap no file has been rotated into twice, and the pass of each record is the one its file is
      still in. */
  ghost predicate LapOne(r: Run)
    requires Valid(r.sys.store) && Sized(r)
  {
    r.rotations < |r.turns| ==>
      && r.sys.store.writeIdx == r.rotations
      && (forall j: nat :: j < |r.turns| ==> r.turns[j] == if 0 < j <= r.rotations then 1 else 0)
      && forall i :: 0 <= i < |r.hist| ==>
           var h := r.hist[i];
           h.gen == h.meta.loc.poolIdx <= r.rotations && h.turn == r.turns[h.meta.loc.poolIdx]
  }

  lemma StepLapOne(r: Run, op: Op)
    requires Valid(r.sys.store) && Sized(r) && LapOne(r) && op.env.header.Done? && op.env.record.Done?
    ensures LapOne(RunStep(r, op))
  {
    hide RunStep, IndexModel.Evict;
    var r' := RunStep(r, op);
    if RecordSize(op.req) > r.sys.store.capacity {
      StepRefuses(r, op);
    } else {
      NextIdxCases(r.sys.store);
      hide Valid, NextIdx;
      if Full(r.sys.store, RecordSize(op.req)) {
        StepTurns(r, op);
      } else {
        StepStays(r, op);
      }
      assert forall i :: 0 <= i < |r.hist| ==> r'.hist[i] == r.hist[i];
    }
  }

  lemma {:induction false} RunLapOne(r: Run, ops: seq<Op>)
    requires Valid(r.sys.store) && Sized(r) && LapOne(r) && HeadersSucceed(ops) && WritesSucceed(ops)
    ensures LapOne(RunAll(r, ops))
  {
    hide RunStep, LapOne, Valid, Sized;
    if ops == [] {
    } else {
      RunLapOne(r, ops[..|ops| - 1]);
      StepLapOne(RunAll(r, ops[..|ops| - 1]), ops[|ops| - 1]);
    }
  }

  lemma {:induction false} RunBlank(r: Run, ops: seq<Op>)
    requires Inv(r) && UsedIsLog(r) && IdsFollow(r) && Filled(r) && BlankTail(r)
    requires HeadersSucceed(ops) && WritesSucceed(ops) && RunAll(r, ops).rotations + |r.turns| < U64
    ensures BlankTail(RunAll(r, ops))
  {
    InvIds(r);
    hide Inv, UsedIsLog, IdsFollow, Filled, RunStep, BlankTail;
    if ops == [] {
    } else {
      var init := ops[..|ops| - 1];
      var before := RunAll(r, init);
      StepRotations(before, ops[|ops| - 1]);
      RunBlank(r, init);
      RunExtends(r, init);
      RunFilled(r, init);
      RunAllLog(r, init);
      StepBlank(before, ops[|ops| - 1]);
    }
  }

  // ---- grouping by file ----

  function ByFile(records: seq<Scanned>, k: nat): seq<Scanned> {
    if k == 0 then [] else ByFile(records, k - 1) + Filter(records, InFile(k - 1))
  }

  lemma {:induction false} ByFileSnoc(records: seq<Scanned>, x: Scanned, k: nat)
    requires forall r :: r in records ==> r.poolIdx <= x.poolIdx
    ensures ByFile(records + [x], k) == if k <= x.poolIdx then ByFile(records, k) else ByFile(records, k) + [x]
  {
    hide Filter;
    if k == 0 {
    } else {
      ByFileSnoc(records, x, k - 1);
      FilterConcat(records, [x], InFile(k - 1));
      FilterAll([x], InFile(k - 1), x.poolIdx == k - 1);
      if k - 1 > x.poolIdx {
        FilterAll(records, InFile(k - 1), false);
      }
      assert Filter(records, InFile(k - 1)) + [] == Filter(records, InFile(k - 1));
    }
  }

  /** Records listed file after file are the concatenation of each file's records. */
  lemma {:induction false} GroupedByFile(records: seq<Scanned>, k: nat)
    requires forall i, m :: 0 <= i < m < |records| ==> records[i].poolIdx <= records[m].poolIdx
    requires forall i :: 0 <= i < |records| ==> records[i].poolIdx < k
    ensures ByFile(records, k) == records
  {
    hide ByFile;
    if records == [] {
      NothingByFile(k);
    } else {
      var init, x := records[..|records| - 1], records[|records| - 1];
      GroupedByFile(init, k);
      ByFileSnoc(init, x, k);
      assert records == init + [x];
    }
  }

  lemma {:induction false} NothingByFile(k: nat)
    ensures ByFile([], k) == []
  {
    if k == 0 {
    } else {
      NothingByFile(k - 1);
    }
  }

  lemma {:induction false} ScanFilesByFile(s: Store, now: Instant, records: seq<Scanned>, k: nat)
    requires k <= |s.slots| == |s.files|
    requires forall j: nat :: j < k ==> FileScan(s, j, now) == Filter(records, InFile(j))
    ensures ScanFiles(s, k, now) == ByFile(records, k)
  {
    hide FileScan, Filter;
    if k > 0 {
      ScanFilesByFile(s, now, records, k - 1);
      ScanFilesSnoc(s, k, now);
    } else {
      assert ScanFiles(s, 0, now) == [];
    }
  }

  // ---- each file's listing ----

  /** The records of file `j` all belong to pass `turn` and carry pool id `id`. */
  ghost predicate OnePass(hist: seq<Accepted>, j: nat, turn: nat, id: nat) {
    forall i :: 0 <= i < |hist| && hist[i].meta.loc.poolIdx == j ==>
      hist[i].turn == turn && hist[i].meta.loc.poolId == id
  }

  lemma {:induction false} OnePassRecall(hist: seq<Accepted>, j: nat, turn: nat, id: nat)
    requires OnePass(hist, j, turn, id)
    ensures RecallPass(hist, j, turn, id) == Filter(RecallAll(hist), InFile(j))
  {
    hide Recall, Filter;
    if hist == [] {
      assert Filter(RecallAll([]), InFile(j)) == [];
    } else {
      var n := |hist| - 1;
      var init, h := hist[..n], hist[n];
      OnePassRecall(init, j, turn, id);
      assert RecallAll(hist) == RecallAll(init) + [Recall(h)];
      FilterConcat(RecallAll(init), [Recall(h)], InFile(j));
      RecallFile(h);
      FilterAll([Recall(h)], InFile(j), h.meta.loc.poolIdx == j);
      hide RecallAll, InFile;
    }
  }

  lemma RecallFile(h: Accepted)
    ensures Recall(h).poolIdx == h.meta.loc.poolIdx && RecallUnder(h, h.meta.loc.poolId) == Recall(h)
  {
  }

  // ---- recovery ----

  /** A run that has not come round, and the store reopened after it. */
  ghost predicate InFirstLap(r: Run, o: Store, now: Instant) {
    && Reopened(r, o, now) && Ring(r) && GensOrdered(r.hist) && LapOne(r) && r.rotations < |r.turns|
    && BlankTail(r) && Restarted(r, o, now)
  }

  lemma FirstLapRecord(r: Run, o: Store, now: Instant, i: nat)
    requires InFirstLap(r, o, now) && i < |r.hist|
    ensures var loc := r.hist[i].meta.loc;
            && Live(r, r.hist[i]) && loc.poolIdx <= r.sys.store.writeIdx < |r.turns| == |o.slots|
            && r.hist[i].gen == loc.poolIdx && r.hist[i].turn == r.turns[loc.poolIdx]
            && loc.poolId == o.slots[loc.poolIdx].poolId == (if loc.poolIdx == 0 then 0 else loc.poolIdx + |r.turns|)
            && loc.size == |r.hist[i].raw| && r.hist[i].meta.id == i
  {
    hide UsedIsLog, AllEncoded, LiveIntact, PoolIdAfter, ReadPoolId, BlankTail, OffsetsInLog, Filled;
    assert Placement(r, r.hist[i]);
    assert r.sys.store.slots[r.hist[i].meta.loc.poolIdx].poolId == r.hist[i].meta.loc.poolId;
  }

  lemma FirstLapBytes(r: Run, o: Store, now: Instant, j: nat)
    requires InFirstLap(r, o, now) && j < |o.slots|
    ensures |r.turns| == |r.sys.store.slots| == |o.slots| == |o.files|
    ensures forall i :: Tail(r, j) <= i < |o.files[j]| ==> o.files[j][i] == 0
  {
    hide LiveIntact, IndexLive, History, PassLog, Concat, AllEncoded, OffsetsInLog, ReadPoolId, PoolIdAfter;
    RingPosition(r, o, now);
    assert o.files[j] == r.sys.store.files[j];
  }

  lemma FirstLapOnePass(r: Run, o: Store, now: Instant, j: nat)
    requires InFirstLap(r, o, now) && j < |o.slots| == |r.turns|
    ensures OnePass(r.hist, j, r.turns[j], o.slots[j].poolId)
  {
    hide InFirstLap;
    forall i: nat | i < |r.hist|
      ensures r.hist[i].meta.loc.poolIdx == j ==>
                r.hist[i].turn == r.turns[j] && r.hist[i].meta.loc.poolId == o.slots[j].poolId
    {
      FirstLapRecord(r, o, now, i);
    }
  }

  lemma FirstLapFile(r: Run, o: Store, now: Instant, j: nat)
    requires InFirstLap(r, o, now) && j < |o.slots|
    ensures |o.slots| == |o.files| && FileScan(o, j, now) == Filter(RecallAll(r.hist), InFile(j))
  {
    hide FileScan, ScanFrom, RecallPass, RecallAll, InFile, OnePass;
    FirstLapBytes(r, o, now, j);
    FirstLapOnePass(r, o, now, j);
    assert Restarted(r, o, now);
    hide InFirstLap, Restarted;
    PassThenTail(r, o, now, j);
    OnePassRecall(r.hist, j, r.turns[j], o.slots[j].poolId);
    NoMagicNoRecord(o.files[j], Origin(j, o.slots[j].poolId, now), Tail(r, j));
    assert FileScan(o, j, now) == RecallPass(r.hist, j, r.turns[j], o.slots[j].poolId);
  }

  lemma FirstLapOrder(r: Run, o: Store, now: Instant, i: nat, m: nat)
    requires InFirstLap(r, o, now) && i < m < |r.hist|
    ensures r.hist[i].meta.loc.poolIdx <= r.hist[m].meta.loc.poolIdx
    ensures ScanLe(Recall(r.hist[i]), Recall(r.hist[m]))
  {
    FirstLapRecord(r, o, now, i);
    FirstLapRecord(r, o, now, m);
    assert GensOrdered(r.hist) && History(r);
    hide InFirstLap, DecodeCamera, CameraField;
    assert SamePass(r.hist[i], r.hist[m]) ==> End(r.hist[i]) <= r.hist[m].meta.loc.offset;
  }

  lemma FirstLapScan(r: Run, o: Store, now: Instant)
    requires InFirstLap(r, o, now)
    ensures |o.slots| == |o.files| && ScanAll(o, now) == RecallAll(r.hist)
  {
    RingPosition(r, o, now);
    assert |o.slots| == |o.files| > 0;
    var records := RecallAll(r.hist);
    hide InFirstLap, FileScan, Filter;
    forall j: nat | j < |o.slots| ensures FileScan(o, j, now) == Filter(records, InFile(j)) {
      FirstLapFile(r, o, now, j);
    }
    forall i: nat | i < |records| ensures records[i].poolIdx < |o.slots| {
      FirstLapRecord(r, o, now, i);
    }
    forall i: nat, m: nat | i < m < |records|
      ensures records[i].poolIdx <= records[m].poolIdx && ScanLe(records[i], records[m])
    {
      FirstLapOrder(r, o, now, i, m);
    }
    hide RecallAll, ScanLe, InFile;
    ScanFilesByFile(o, now, records, |o.slots|);
    GroupedByFile(records, |o.slots|);
    SortOfSorted(records, ScanLe);
  }

  lemma FreshBlank(n: nat, capacity: nat, now: Instant)
    requires 0 < n < U64
    ensures BlankTail(Fresh(n, capacity, now))
  {
    hide FreshStore, ScanFrom, ReadPoolId, FileScan, Valid;
    var r := Fresh(n, capacity, now);
    FreshFiles(n, capacity, now, 0);
    forall j: nat | j < n
      ensures forall i :: POOL_HEADER <= i < |r.sys.store.files[j]| ==> r.sys.store.files[j][i] == 0
    {
      FreshFiles(n, capacity, now, j);
    }
  }

  lemma FirstLapRun(n: nat, capacity: nat, now: Instant, ops: seq<Op>)
    requires 0 < n && 2 * n < U64 && HeadersSucceed(ops) && WritesSucceed(ops)
    requires RunAll(Fresh(n, capacity, now), ops).rotations < n
    ensures var r := RunAll(Fresh(n, capacity, now), ops);
            Ring(r) && GensOrdered(r.hist) && LapOne(r) && BlankTail(r)
  {
    hide Fresh, RunAll, Inv, UsedIsLog, IdsFollow, Filled, Ring, Remembers, BlankTail, Valid, Sized, UsedAsScanned;
    var r0 := Fresh(n, capacity, now);
    FreshRing(n, capacity, now);
    FreshFollow(n, capacity, now);
    FreshFilled(n, capacity, now);
    FreshStart(n, capacity, now);
    FreshCapacity(n, capacity, now);
    FreshBlank(n, capacity, now);
    FreshLapOne(n, capacity, now);
    hide LapOne;
    LaterGens(r0, ops);
    RunBlank(r0, ops);
    RunAllRing(r0, ops);
    RunLapOne(r0, ops);
  }

  lemma FreshLapOne(n: nat, capacity: nat, now: Instant)
    requires 0 < n < U64
    ensures LapOne(Fresh(n, capacity, now))
  {
    hide FreshStore, Valid, UsedAsScanned;
    FreshShape(n, capacity, now);
    StartShape(FreshStore(n, capacity, now), now);
    hide Start;
  }

  /** Run from a fresh store in which no write fails, fewer than n rotations, restart: the scan returns exactly
      the accepted records, in the order and under the ids they were accepted, at their locations, with
      whole-second times and the id its 16-byte field remembers, whatever was refused or evicted. */
  lemma RestartRecoversAll(n: nat, capacity: nat, now: Instant, ops: seq<Op>, env: Env)
    requires 0 < n && 2 * n < U64 && HeadersSucceed(ops) && WritesSucceed(ops) && PayloadsFit(ops)
    requires RunAll(Fresh(n, capacity, now), ops).rotations < n
    ensures var r := RunAll(Fresh(n, capacity, now), ops);
            var s := r.sys.store;
            && FullLength(DiskOf(s), s.capacity) && Open(DiskOf(s), s.capacity, env).Some?
            && var o := Open(DiskOf(s), s.capacity, env).value;
               && Valid(o) && InFirstLap(r, o, env.now) && ScanAll(o, env.now) == RecallAll(r.hist)
               && Inv(Start(o, env.now))
  {
    hide Fresh, RunAll, Open, Ring, LapOne, BlankTail, OffsetsInLog, Start, UsedAsScanned, ScanAll, Inv, Valid,
      IdsFollow, Filled, UsedIsLog, AllEncoded, AllShort, HeadersSucceed, WritesSucceed, PayloadsFit;
    RunReopened(n, capacity, now, ops, env);
    RunRestarts(n, capacity, now, ops, env);
    FirstLapRun(n, capacity, now, ops);
    var r := RunAll(Fresh(n, capacity, now), ops);
    var o := Open(DiskOf(r.sys.store), r.sys.store.capacity, env).value;
    FirstLapScan(r, o, env.now);
    StartInv(o, env.now);
  }
}
