/** What a restart recovers of a run, however often the ring has come round and whatever failed meanwhile: every
    record that has not been rotated over, at its place, with its bytes; and what rounding times down to the
    second does to range queries. */
module Restart {
  import opened Bytes
  import opened RecordFormat
  import opened PoolScan
  import opened PoolModel
  import opened IndexModel
  import opened Sorting
  import opened ChunkPoolClass
  import opened WriterModel
  import opened Recovery
  import opened ScanRoundTrip
  import opened RingHistory
  import opened Resume

  /** What a restart remembers of an accepted record. */
  function Recall(h: Accepted): Scanned {
    Scanned(DecodeCamera(CameraField(h.meta.camera)), Secs(h.meta.start) * NANOS, Secs(h.meta.end) * NANOS,
            h.meta.loc.poolIdx, h.meta.loc.poolId, h.meta.loc.offset, h.meta.loc.size)
  }

  /** The same, under the pool id the reopened file has. */
  function RecallUnder(h: Accepted, id: nat): Scanned {
    Recall(h).(poolId := id)
  }

  lemma RecallIsScanned(h: Accepted, id: nat, now: Instant)
    requires Encoded(h) && |h.raw| < RECORD_HEADER + U32 && h.meta.loc.size == |h.raw|
    ensures SelfDescribing(h.raw)
    ensures ScannedFrom(h.raw, Origin(h.meta.loc.poolIdx, id, now), h.meta.loc.offset) == RecallUnder(h, id)
  {
    hide ParseHeader, EncodeHeader, DecodeCamera, CameraField;
    var q := Request(h.meta.camera, h.meta.start, h.meta.end, h.raw[RECORD_HEADER..]);
    ParseEncoded(q);
    SelfDescribingIff(q);
    FloorSecs(q.start, now);
    FloorSecs(q.end, now);
  }

  // ---- offsets ----

  /** Every record starts where the records before it in the same pass end. */
  ghost predicate OffsetsInLog(hist: seq<Accepted>) {
    forall i :: 0 <= i < |hist| ==>
      hist[i].meta.loc.offset
      == POOL_HEADER + |Concat(PassLog(hist[..i], hist[i].meta.loc.poolIdx, hist[i].turn))|
  }

  lemma RecordedOffsets(r: Run, q: Request, io: Io)
    requires Inv(r) && UsedIsLog(r) && OffsetsInLog(r.hist) && !Full(r.sys.store, RecordSize(q))
    ensures OffsetsInLog(Recorded(r, q, io).hist)
  {
    hide PoolIdAfter, EncodeHeader, KeyLe, Insert, IndexLive, LiveIntact, PassLog, Concat;
    var r' := Recorded(r, q, io);
    var w := r.sys.store.writeIdx;
    if io.Done? {
      assert r'.hist[..|r.hist|] == r.hist;
      assert forall i :: 0 <= i < |r.hist| ==> r'.hist[..i] == r.hist[..i];
      var part := r.sys.store.files[w][POOL_HEADER..POOL_HEADER + r.sys.store.slots[w].used];
      assert part == Concat(PassLog(r.hist, w, r.turns[w]));
    }
  }

  lemma TurnedLog(r: Run, now: Instant, io: Io)
    requires Inv(r) && UsedIsLog(r)
    ensures Valid(Evicted(r).sys.store)
    ensures Inv(Rotated(Evicted(r), now, io)) && UsedIsLog(Rotated(Evicted(r), now, io))
  {
    InvIds(r);
    EvictedInv(r);
    assert UsedIsLog(Evicted(r));
    hide UsedIsLog, Inv;
    RotatedInv(Evicted(r), now, io);
    InvIds(Rotated(Evicted(r), now, io));
    RotatedLog(Evicted(r), now, io);
  }

  lemma StepOffsets(r: Run, op: Op)
    requires Inv(r) && UsedIsLog(r) && OffsetsInLog(r.hist)
    ensures OffsetsInLog(RunStep(r, op).hist)
  {
    hide Inv, UsedIsLog, OffsetsInLog, Evict, PoolHeader, WriteRecord;
    InvIds(r);
    if RecordSize(op.req) > r.sys.store.capacity {
    } else if Full(r.sys.store, RecordSize(op.req)) {
      TurnedLog(r, op.env.now, op.env.header);
      if op.env.header.Done? {
        RecordedOffsets(Rotated(Evicted(r), op.env.now, Done), op.req, op.env.record);
      }
    } else {
      RecordedOffsets(r, op.req, op.env.record);
    }
  }

  lemma {:induction false} RunOffsets(r: Run, ops: seq<Op>)
    requires Inv(r) && UsedIsLog(r) && OffsetsInLog(r.hist)
    ensures OffsetsInLog(RunAll(r, ops).hist)
  {
    hide Inv, UsedIsLog, OffsetsInLog, RunStep;
    InvIds(r);
    if ops == [] {
    } else {
      RunOffsets(r, ops[..|ops| - 1]);
      RunAllLog(r, ops[..|ops| - 1]);
      StepOffsets(RunAll(r, ops[..|ops| - 1]), ops[|ops| - 1]);
    }
  }

  // ---- the listing of a pass ----

  lemma {:induction false} ListingSnoc(raws: seq<seq<byte>>, raw: seq<byte>, o: Origin, off: nat)
    requires AllSelfDescribing(raws) && SelfDescribing(raw)
    ensures AllSelfDescribing(raws + [raw])
    ensures Listing(raws + [raw], o, off) == Listing(raws, o, off) + [ScannedFrom(raw, o, off + |Concat(raws)|)]
  {
    hide SelfDescribing, ScannedFrom;
    if raws == [] {
      assert raws + [raw] == [raw] && [raw][1..] == [];
    } else {
      assert (raws + [raw])[1..] == raws[1..] + [raw];
      ListingSnoc(raws[1..], raw, o, off + |raws[0]|);
    }
  }

  /** What a restart remembers of the records of pass `turn` of file `j`, oldest first. */
  function RecallPass(hist: seq<Accepted>, j: nat, turn: nat, id: nat): seq<Scanned> {
    if hist == [] then []
    else
      var h := hist[|hist| - 1];
      RecallPass(hist[..|hist| - 1], j, turn, id)
      + (if h.meta.loc.poolIdx == j && h.turn == turn then [RecallUnder(h, id)] else [])
  }

  ghost predicate RecordsRecall(hist: seq<Accepted>) {
    forall i :: 0 <= i < |hist| ==>
      Encoded(hist[i]) && |hist[i].raw| < RECORD_HEADER + U32 && hist[i].meta.loc.size == |hist[i].raw|
  }

  /** The payload lengths fit the u32 field. */
  ghost predicate AllShort(hist: seq<Accepted>) {
    forall i :: 0 <= i < |hist| ==> |hist[i].raw| < RECORD_HEADER + U32
  }

  lemma {:induction false} RunShort(r: Run, ops: seq<Op>)
    requires Valid(r.sys.store) && Sized(r) && AllShort(r.hist) && PayloadsFit(ops)
    ensures AllShort(RunAll(r, ops).hist)
  {
    hide EncodeHeader, PoolHeader, IndexModel.Evict, IndexModel.Insert, Patch;
    if ops == [] {
    } else {
      RunShort(r, ops[..|ops| - 1]);
    }
  }

  lemma OffsetsSnoc(hist: seq<Accepted>)
    requires OffsetsInLog(hist) && hist != []
    ensures var n := |hist| - 1;
            && OffsetsInLog(hist[..n])
            && hist[n].meta.loc.offset
               == POOL_HEADER + |Concat(PassLog(hist[..n], hist[n].meta.loc.poolIdx, hist[n].turn))|
  {
    hide Concat, PassLog;
    var init := hist[..|hist| - 1];
    assert forall i :: 0 <= i < |init| ==> init[..i] == hist[..i];
  }

  lemma {:induction false} ListingOfPass(hist: seq<Accepted>, j: nat, turn: nat, id: nat, now: Instant)
    requires RecordsRecall(hist) && OffsetsInLog(hist)
    ensures AllSelfDescribing(PassLog(hist, j, turn))
    ensures Listing(PassLog(hist, j, turn), Origin(j, id, now), POOL_HEADER) == RecallPass(hist, j, turn, id)
  {
    hide Encoded, RecallUnder, SelfDescribing, ScannedFrom, OffsetsInLog, Listing;
    if hist == [] {
      NothingListed(Origin(j, id, now));
    } else {
      var n := |hist| - 1;
      var init, h := hist[..n], hist[n];
      OffsetsSnoc(hist);
      ListingOfPass(init, j, turn, id, now);
      RecallIsScanned(h, id, now);
      if h.meta.loc.poolIdx == j && h.turn == turn {
        ListingSnoc(PassLog(init, j, turn), h.raw, Origin(j, id, now), POOL_HEADER);
      } else {
        assert PassLog(hist, j, turn) == PassLog(init, j, turn) + [] == PassLog(init, j, turn);
      }
    }
  }

  lemma NothingListed(o: Origin)
    ensures Listing([], o, POOL_HEADER) == []
  {
  }

  lemma {:induction false} RecallPassMembers(hist: seq<Accepted>, j: nat, turn: nat, id: nat, x: Scanned)
    ensures x in RecallPass(hist, j, turn, id) <==>
            exists i: nat :: i < |hist| && Recalls(hist[i], j, turn, id, x)
  {
    hide RecallUnder;
    if hist == [] {
    } else {
      var n := |hist| - 1;
      RecallPassMembers(hist[..n], j, turn, id, x);
      assert x in RecallPass(hist, j, turn, id) <==>
             x in RecallPass(hist[..n], j, turn, id) || Recalls(hist[n], j, turn, id, x);
      if i: nat :| i < n && Recalls(hist[..n][i], j, turn, id, x) {
        assert Recalls(hist[i], j, turn, id, x);
      }
      if i: nat :| i < |hist| && Recalls(hist[i], j, turn, id, x) {
        assert i < n ==> Recalls(hist[..n][i], j, turn, id, x);
      }
    }
  }

  predicate Recalls(h: Accepted, j: nat, turn: nat, id: nat, x: Scanned) {
    h.meta.loc.poolIdx == j && h.turn == turn && x == RecallUnder(h, id)
  }

  // ---- the reopened store ----

  /** A run and the store reopened from its files. */
  ghost predicate Restarted(r: Run, o: Store, now: Instant) {
    && Inv(r) && UsedIsLog(r) && AllEncoded(r.hist) && AllShort(r.hist) && OffsetsInLog(r.hist)
    && Valid(o) && UsedAsScanned(o, now) && o.files == r.sys.store.files && |o.slots| == |r.turns|
  }

  lemma RestartedShape(r: Run, o: Store, now: Instant)
    requires Restarted(r, o, now)
    ensures |r.sys.store.slots| == |r.turns| == |o.slots| == |o.files| && RecordsRecall(r.hist)
    ensures forall j: nat :: j < |o.slots| ==>
              && Tail(r, j) <= |o.files[j]|
              && o.files[j][POOL_HEADER..Tail(r, j)] == Concat(PassLog(r.hist, j, r.turns[j]))
  {
    hide PassLog, Concat, Encoded, LiveIntact, IndexLive, PoolIdAfter, UsedAsScanned, OffsetsInLog;
    InvIds(r);
    forall i | 0 <= i < |r.hist| ensures r.hist[i].meta.loc.size == |r.hist[i].raw| {
      assert Placement(r, r.hist[i]);
    }
    forall j: nat | j < |o.slots|
      ensures o.files[j][POOL_HEADER..Tail(r, j)] == Concat(PassLog(r.hist, j, r.turns[j]))
    {
      assert o.files[j] == r.sys.store.files[j];
    }
  }

  /** The scan of a file is its current pass, then whatever the bytes behind it say. */
  lemma PassThenTail(r: Run, o: Store, now: Instant, j: nat)
    requires Restarted(r, o, now) && j < |o.slots|
    ensures |r.sys.store.slots| == |r.turns| == |o.slots| == |o.files|
    ensures FileScan(o, j, now)
            == RecallPass(r.hist, j, r.turns[j], o.slots[j].poolId)
               + ScanFrom(o.files[j], Origin(j, o.slots[j].poolId, now), Tail(r, j))
  {
    RestartedShape(r, o, now);
    assert OffsetsInLog(r.hist);
    hide Restarted, ScanFrom, PassLog, Concat, RecordsRecall, OffsetsInLog, RecallPass, Listing, SelfDescribing;
    var log, origin := PassLog(r.hist, j, r.turns[j]), Origin(j, o.slots[j].poolId, now);
    ListingOfPass(r.hist, j, r.turns[j], o.slots[j].poolId, now);
    assert |Concat(log)| == Tail(r, j) - POOL_HEADER;
    ScanOfRecords(o.files[j], origin, POOL_HEADER, log);
  }

  lemma InTail(file: seq<byte>, o: Origin, tail: nat, x: Scanned)
    requires tail <= |file| && x in ScanFrom(file, o, tail)
    ensures x.offset >= tail
  {
    hide ScanFrom, SelfDescribing, ScannedFrom;
    var i :| 0 <= i < |ScanFrom(file, o, tail)| && ScanFrom(file, o, tail)[i] == x;
    ScannedAreSelfDescribing(file, o, tail, i);
  }

  lemma InFullScan(o: Store, now: Instant, x: Scanned, j: nat)
    requires Valid(o) && j < |o.slots|
    ensures x in ScanAll(o, now) && x.poolIdx == j <==> x in FileScan(o, j, now)
  {
    hide ScanAll, FileScan;
    FullScanByFile(o, j, now);
    assert x in Filter(ScanAll(o, now), InFile(j)) <==> x in ScanAll(o, now) && x.poolIdx == j;
  }

  lemma LiveInBounds(r: Run, i: nat)
    requires Inv(r) && i < |r.hist| && Live(r, r.hist[i])
    ensures var loc := r.hist[i].meta.loc;
            loc.poolIdx < |r.sys.store.slots| == |r.turns| && loc.offset < Tail(r, loc.poolIdx)
  {
    hide KeyLe, PoolIdAfter;
    assert Placement(r, r.hist[i]) && Intact(r.sys.store, r.hist[i]);
  }

  /** A record of the full scan that lies in the used part of its file is a live record, and every live record
      is among them. */
  lemma ScannedIffLive(r: Run, o: Store, now: Instant, x: Scanned)
    requires Restarted(r, o, now)
    ensures |r.sys.store.slots| == |r.turns| == |o.slots| == |o.files|
    ensures x in ScanAll(o, now) && x.poolIdx < |o.slots| && x.offset < Tail(r, x.poolIdx) <==>
            exists i: nat :: i < |r.hist| && Live(r, r.hist[i])
              && Recalls(r.hist[i], x.poolIdx, r.hist[i].turn, x.poolId, x)
              && x.poolIdx < |o.slots| && x.poolId == o.slots[x.poolIdx].poolId
  {
    RestartedShape(r, o, now);
    assert Inv(r) && Valid(o);
    hide Restarted, ScanAll, FileScan, RecallPass, ScanFrom, Inv, Valid, UsedIsLog;
    var j := x.poolIdx;
    if j < |o.slots| {
      InFullScan(o, now, x, j);
      PassThenTail(r, o, now, j);
      var pass, behind := RecallPass(r.hist, j, r.turns[j], o.slots[j].poolId),
                          ScanFrom(o.files[j], Origin(j, o.slots[j].poolId, now), Tail(r, j));
      assert x in FileScan(o, j, now) <==> x in pass || x in behind;
      if x in behind {
        InTail(o.files[j], Origin(j, o.slots[j].poolId, now), Tail(r, j), x);
      }
      RecallPassMembers(r.hist, j, r.turns[j], o.slots[j].poolId, x);
      if i: nat :| i < |r.hist| && Recalls(r.hist[i], j, r.turns[j], o.slots[j].poolId, x) {
        LiveInBounds(r, i);
      }
    }
  }

  /** The payload lengths fit the u32 field of a record header. */
  predicate PayloadsFit(ops: seq<Op>) {
    forall i :: 0 <= i < |ops| ==> |ops[i].req.data| < U32
  }

  lemma RunRestarts(n: nat, capacity: nat, now: Instant, ops: seq<Op>, env: Env)
    requires 0 < n < U64 && PayloadsFit(ops)
    ensures var r := RunAll(Fresh(n, capacity, now), ops);
            var s := r.sys.store;
            && |r.turns| == |s.slots| == |s.files| == n && FullLength(DiskOf(s), s.capacity)
            && Open(DiskOf(s), s.capacity, env).Some?
            && Restarted(r, Open(DiskOf(s), s.capacity, env).value, env.now)
  {
    hide Fresh, RunAll, Inv, UsedIsLog, Open, UsedAsScanned, Encoded, OffsetsInLog, Valid, DiskOf;
    var r0 := Fresh(n, capacity, now);
    FreshStart(n, capacity, now);
    NoOffsets();
    RunAllLog(r0, ops);
    RunOffsets(r0, ops);
    RunEncoded(r0, ops);
    RunShort(r0, ops);
    RunExtends(r0, ops);
    SameSlots(RunAll(r0, ops));
    Reopen(RunAll(r0, ops).sys.store, env);
  }

  lemma SameSlots(r: Run)
    requires Valid(r.sys.store) && Sized(r)
    ensures |r.sys.store.slots| == |r.turns| == |r.sys.store.files|
  {
  }

  lemma NoOffsets()
    ensures OffsetsInLog([])
  {
  }

  /** Restart after any run of a fresh store, after any number of laps, with writes that failed and requests
      that were too large: every record not rotated over is recovered, at its place, with whole-second times
      and the id its 16-byte field remembers, under the id its file has on disk; and whatever else the scan
      finds lies behind the used part of its file. */
  lemma RestartRecoversLive(n: nat, capacity: nat, now: Instant, ops: seq<Op>, env: Env)
    requires 0 < n < U64 && PayloadsFit(ops)
    ensures var r := RunAll(Fresh(n, capacity, now), ops);
            var s := r.sys.store;
            && FullLength(DiskOf(s), s.capacity) && Open(DiskOf(s), s.capacity, env).Some?
            && var o := Open(DiskOf(s), s.capacity, env).value;
               && Valid(o) && |o.slots| == |s.slots| && o.files == s.files && Inv(Start(o, env.now))
               && (forall i: nat :: i < |r.hist| && Live(r, r.hist[i]) ==>
                     var j := r.hist[i].meta.loc.poolIdx;
                     j < |o.slots| && RecallUnder(r.hist[i], o.slots[j].poolId) in ScanAll(o, env.now))
               && (forall x :: x in ScanAll(o, env.now) && x.poolIdx < |s.slots| && x.offset < Tail(r, x.poolIdx) ==>
                     exists i: nat :: i < |r.hist| && Live(r, r.hist[i]) && x == RecallUnder(r.hist[i], x.poolId))
  {
    hide Fresh, RunAll, Open, DiskOf, Valid, Inv, Start, ScanAll, Tail, UsedIsLog, AllEncoded, OffsetsInLog,
      UsedAsScanned;
    RunRestarts(n, capacity, now, ops, env);
    var r := RunAll(Fresh(n, capacity, now), ops);
    var s := r.sys.store;
    var o := Open(DiskOf(s), s.capacity, env).value;
    StartInv(o, env.now);
    RestartedShape(r, o, env.now);
    forall i: nat | i < |r.hist| && Live(r, r.hist[i])
      ensures var j := r.hist[i].meta.loc.poolIdx;
              j < |o.slots| && RecallUnder(r.hist[i], o.slots[j].poolId) in ScanAll(o, env.now)
    {
      LiveRecalled(r, o, env.now, i);
    }
    forall x | x in ScanAll(o, env.now) && x.poolIdx < |s.slots| && x.offset < Tail(r, x.poolIdx)
      ensures exists i: nat :: i < |r.hist| && Live(r, r.hist[i]) && x == RecallUnder(r.hist[i], x.poolId)
    {
      ScannedIffLive(r, o, env.now, x);
    }
  }

  lemma LiveRecalled(r: Run, o: Store, now: Instant, i: nat)
    requires Restarted(r, o, now) && i < |r.hist| && Live(r, r.hist[i])
    ensures var loc := r.hist[i].meta.loc;
            && loc.poolIdx < |o.slots| == |o.files|
            && RecallUnder(r.hist[i], o.slots[loc.poolIdx].poolId) in ScanAll(o, now)
  {
    RestartedShape(r, o, now);
    assert Inv(r);
    hide Restarted, ScanAll, Inv;
    LiveInBounds(r, i);
    var j := r.hist[i].meta.loc.poolIdx;
    var x := RecallUnder(r.hist[i], o.slots[j].poolId);
    ScannedIffLive(r, o, now, x);
    assert Recalls(r.hist[i], x.poolIdx, r.hist[i].turn, x.poolId, x);
  }

  /** Every scanned record recalls a live one. */
  ghost predicate OnlyLive(r: Run, records: seq<Scanned>) {
    forall x :: x in records ==>
      exists i: nat :: i < |r.hist| && Live(r, r.hist[i]) && x == RecallUnder(r.hist[i], x.poolId)
  }

  /** A fitting header behind the used part of some file. */
  ghost predicate FitsBehind(r: Run, o: Store)
    requires |o.files| == |r.sys.store.slots|
  {
    exists j: nat :: j < |o.files| && Fits(o.files[j], Tail(r, j))
  }

  lemma FoundBehind(r: Run, o: Store, now: Instant, j: nat)
    requires Restarted(r, o, now) && j < |o.slots| == |o.files| == |r.sys.store.slots| && Fits(o.files[j], Tail(r, j))
    ensures !OnlyLive(r, ScanAll(o, now))
  {
    PassThenTail(r, o, now, j);
    var origin := Origin(j, o.slots[j].poolId, now);
    var x := RecordAt(o.files[j], origin, Tail(r, j));
    assert ScanFrom(o.files[j], origin, Tail(r, j))[0] == x;
    assert x in FileScan(o, j, now);
    InFullScan(o, now, x, j);
    assert Inv(r);
    hide Restarted, ScanAll, FileScan, ScanFrom, RecordAt, Fits, Inv, RecallPass;
    forall i: nat | i < |r.hist| && Live(r, r.hist[i]) ensures x != RecallUnder(r.hist[i], x.poolId) {
      LiveInBounds(r, i);
    }
  }

  lemma NothingBehind(r: Run, o: Store, now: Instant)
    requires Restarted(r, o, now) && |o.slots| == |o.files| == |r.sys.store.slots| && !FitsBehind(r, o)
    ensures OnlyLive(r, ScanAll(o, now))
  {
    hide Restarted, ScanAll, FitsBehind, RecallUnder, Live;
    forall x | x in ScanAll(o, now)
      ensures exists i: nat :: i < |r.hist| && Live(r, r.hist[i]) && x == RecallUnder(r.hist[i], x.poolId)
    {
      var i := RecalledFrom(r, o, now, x);
    }
  }

  lemma RecalledFrom(r: Run, o: Store, now: Instant, x: Scanned) returns (i: nat)
    requires Restarted(r, o, now) && |o.slots| == |o.files| == |r.sys.store.slots| && !FitsBehind(r, o)
    requires x in ScanAll(o, now)
    ensures i < |r.hist| && Live(r, r.hist[i]) && x == RecallUnder(r.hist[i], x.poolId)
  {
    hide Restarted, ScanAll, FileScan, RecallPass, Fits, TotalSize, Valid, ScanFrom, Tail, FitsBehind, UsedAsScanned,
      RecallUnder;
    RestartedValid(r, o, now);
    FullScanRecords(o, now);
    RestartedShape(r, o, now);
    var a :| 0 <= a < |ScanAll(o, now)| && ScanAll(o, now)[a] == x;
    var j := x.poolIdx;
    InFullScan(o, now, x, j);
    PassThenTail(r, o, now, j);
    TailStops(r, o, now, j);
    RecallPassMembers(r.hist, j, r.turns[j], o.slots[j].poolId, x);
    i :| 0 <= i < |r.hist| && r.hist[i].meta.loc.poolIdx == j && r.hist[i].turn == r.turns[j]
         && x == RecallUnder(r.hist[i], o.slots[j].poolId);
  }

  lemma TailStops(r: Run, o: Store, now: Instant, j: nat)
    requires Restarted(r, o, now) && |o.slots| == |o.files| == |r.sys.store.slots| && !FitsBehind(r, o)
    requires j < |o.slots| && Tail(r, j) <= |o.files[j]|
    ensures ScanFrom(o.files[j], Origin(j, o.slots[j].poolId, now), Tail(r, j)) == []
  {
    hide Restarted, Fits;
  }

  lemma RestartedValid(r: Run, o: Store, now: Instant)
    requires Restarted(r, o, now)
    ensures Valid(o)
  {
  }

  /** When a restart recovers the live records and nothing else: if and only if no fitting record header stands
      at the write tail of any file. */
  lemma RecoversOnlyLiveIff(n: nat, capacity: nat, now: Instant, ops: seq<Op>, env: Env)
    requires 0 < n < U64 && PayloadsFit(ops)
    ensures var r := RunAll(Fresh(n, capacity, now), ops);
            var s := r.sys.store;
            && FullLength(DiskOf(s), s.capacity) && Open(DiskOf(s), s.capacity, env).Some?
            && var o := Open(DiskOf(s), s.capacity, env).value;
               && |o.files| == |s.slots| && |o.slots| == |o.files|
               && (OnlyLive(r, ScanAll(o, env.now)) <==> !FitsBehind(r, o))
  {
    hide Fresh, RunAll, Open, DiskOf, ScanAll, Restarted, OnlyLive, Fits, Tail;
    RunRestarts(n, capacity, now, ops, env);
    var r := RunAll(Fresh(n, capacity, now), ops);
    var o := Open(DiskOf(r.sys.store), r.sys.store.capacity, env).value;
    RestartedShape(r, o, env.now);
    if j: nat :| j < |o.files| && Fits(o.files[j], Tail(r, j)) {
      FoundBehind(r, o, env.now, j);
    } else {
      NothingBehind(r, o, env.now);
    }
  }

  // ---- range queries across a restart ----

  predicate WholeSecond(t: Instant) {
    t % NANOS == 0
  }

  /** An id that a restart reads back unchanged. */
  predicate Rememberable(camera: seq<byte>) {
    Utf8(camera) && |camera| <= 16 && (camera == [] || camera[|camera| - 1] != 0)
  }

  lemma RangeOfRecalled(start: Instant, end: Instant, from: Instant, to: Instant)
    requires WholeSecond(from) && WholeSecond(to)
    ensures Secs(start) * NANOS < to <==> start < to
    ensures Secs(end) * NANOS > from <==> end >= from + NANOS
  {
  }

  predicate Overlaps(m: Meta, camera: seq<byte>, from: Instant, to: Instant) {
    m.camera == camera && m.start < to && m.end > from
  }

  /** `m` in the rebuilt index stands for the accepted record `h`: same file, offset and size. */
  predicate SamePlace(m: Meta, h: Accepted) {
    m.loc.poolIdx == h.meta.loc.poolIdx && m.loc.offset == h.meta.loc.offset && m.loc.size == h.meta.loc.size
  }

  lemma RecalledOverlap(m: Meta, h: Accepted, id: nat, camera: seq<byte>, from: Instant, to: Instant)
    requires WholeSecond(from) && WholeSecond(to) && Rememberable(h.meta.camera)
    requires var x := RecallUnder(h, id); m.camera == x.camera && m.start == x.start && m.end == x.end
    ensures Overlaps(m, camera, from, to) <==> Overlaps(h.meta, camera, from, to) && h.meta.end >= from + NANOS
  {
    hide Utf8, CameraField, DecodeCamera, Secs;
    CameraIdRoundTrip(h.meta.camera);
    RangeOfRecalled(h.meta.start, h.meta.end, from, to);
  }

  /** After a restart of any run, every indexed record has an entry again: same file, offset, size and bytes. A
      range query over whole seconds returns it exactly when the query before did and the record ends at least
      one second after `from`. */
  lemma RangeAfterRestart(n: nat, capacity: nat, now: Instant, ops: seq<Op>, env: Env,
                          camera: seq<byte>, from: Instant, to: Instant, i: nat) returns (m: Meta)
    requires 0 < n < U64 && PayloadsFit(ops) && WholeSecond(from) && WholeSecond(to)
    requires Indexed(RunAll(Fresh(n, capacity, now), ops), i)
    requires Rememberable(RunAll(Fresh(n, capacity, now), ops).hist[i].meta.camera)
    ensures var r := RunAll(Fresh(n, capacity, now), ops);
            var s, h := r.sys.store, r.hist[i];
            && FullLength(DiskOf(s), s.capacity) && Open(DiskOf(s), s.capacity, env).Some?
            && var o := Open(DiskOf(s), s.capacity, env).value;
               && Valid(o) && var r' := Start(o, env.now);
               && m in r'.sys.index.entries && SamePlace(m, h)
               && |h.raw| >= RECORD_HEADER && Addressable(o, m.loc) && ReadSegment(o, m.loc) == Some(Payload(h))
               && (m in InRange(r'.sys.index, camera, from, to) <==>
                   h.meta in InRange(r.sys.index, camera, from, to) && h.meta.end >= from + NANOS)
  {
    hide Fresh, RunAll, Open, DiskOf, ScanAll, Start;
    RunRestarts(n, capacity, now, ops, env);
    var r := RunAll(Fresh(n, capacity, now), ops);
    var o := Open(DiskOf(r.sys.store), r.sys.store.capacity, env).value;
    m := RecalledEntry(r, o, env.now, camera, from, to, i);
  }

  lemma RecalledEntry(r: Run, o: Store, now: Instant, camera: seq<byte>, from: Instant, to: Instant, i: nat)
    returns (m: Meta)
    requires Restarted(r, o, now) && Indexed(r, i) && WholeSecond(from) && WholeSecond(to)
    requires Rememberable(r.hist[i].meta.camera)
    ensures Valid(o) && |r.hist[i].raw| >= RECORD_HEADER
    ensures m in Start(o, now).sys.index.entries && SamePlace(m, r.hist[i])
    ensures Addressable(o, m.loc) && ReadSegment(o, m.loc) == Some(Payload(r.hist[i]))
    ensures m in InRange(Start(o, now).sys.index, camera, from, to) <==>
            r.hist[i].meta in InRange(r.sys.index, camera, from, to) && r.hist[i].meta.end >= from + NANOS
  {
    hide ScanAll, KeyLe, Rebuild, UsedIsLog, AllEncoded, OffsetsInLog, UsedAsScanned, Rememberable, WholeSecond, Inv,
      DecodeCamera, CameraField;
    var h := r.hist[i];
    IndexedIsLive(r, i);
    LiveRecalled(r, o, now, i);
    var id := o.slots[h.meta.loc.poolIdx].poolId;
    var k: nat :| k < |ScanAll(o, now)| && ScanAll(o, now)[k] == RecallUnder(h, id);
    RebuildEntries(ScanAll(o, now));
    m := ScannedMeta(ScanAll(o, now), k);
    RecalledOverlap(m, h, id, camera, from, to);
    IndexedReads(r, i);
  }

  lemma IndexedReads(r: Run, i: nat)
    requires Inv(r) && Indexed(r, i)
    ensures Valid(r.sys.store) && |r.hist[i].raw| >= RECORD_HEADER && Addressable(r.sys.store, r.hist[i].meta.loc)
    ensures ReadSegment(r.sys.store, r.hist[i].meta.loc) == Some(Payload(r.hist[i]))
  {
    InvIds(r);
    EntryReadable(r, r.hist[i].meta);
    assert History(r);
    hide Ids, Placement, Live, ReadSegment;
  }

  /** The recovered index answers with nothing new from the used parts: what it returns there is a live record
      the query would have matched before, if its id is one that survives. */
  lemma RangeInventsNothing(n: nat, capacity: nat, now: Instant, ops: seq<Op>, env: Env,
                            camera: seq<byte>, from: Instant, to: Instant, m: Meta) returns (i: nat)
    requires 0 < n < U64 && PayloadsFit(ops) && WholeSecond(from) && WholeSecond(to)
    requires var r := RunAll(Fresh(n, capacity, now), ops);
             var s := r.sys.store;
             && FullLength(DiskOf(s), s.capacity) && Open(DiskOf(s), s.capacity, env).Some?
             && var o := Open(DiskOf(s), s.capacity, env).value;
                && Valid(o) && m in InRange(Start(o, env.now).sys.index, camera, from, to)
                && m.loc.poolIdx < |s.slots| && m.loc.offset < Tail(r, m.loc.poolIdx)
    ensures var r := RunAll(Fresh(n, capacity, now), ops);
            && i < |r.hist| && Live(r, r.hist[i]) && SamePlace(m, r.hist[i])
            && (Rememberable(r.hist[i].meta.camera) ==> Overlaps(r.hist[i].meta, camera, from, to))
  {
    hide Fresh, RunAll, Open, DiskOf, ScanAll, Rebuild, KeyLe, Inv, Rememberable, WholeSecond, Restarted;
    RunRestarts(n, capacity, now, ops, env);
    var r := RunAll(Fresh(n, capacity, now), ops);
    var o := Open(DiskOf(r.sys.store), r.sys.store.capacity, env).value;
    RebuildEntries(ScanAll(o, env.now));
    var x := ScanAll(o, env.now)[m.id];
    ScannedIffLive(r, o, env.now, x);
    i :| i < |r.hist| && Live(r, r.hist[i]) && Recalls(r.hist[i], x.poolIdx, r.hist[i].turn, x.poolId, x);
    if Rememberable(r.hist[i].meta.camera) {
      RecalledOverlap(m, r.hist[i], x.poolId, camera, from, to);
    }
  }
}
