/** What scanning a file that is in use gives back: the records of its current pass, then whatever the bytes
    behind them happen to say. */
module ScanRoundTrip {
  import opened Bytes
  import opened RecordFormat
  import opened PoolScan
  import opened PoolModel
  import opened IndexModel
  import opened Sorting
  import opened ChunkPoolClass
  import opened WriterModel
  import opened Recovery

  // ---- the log of a freshly started system ----

  function RawsAt(s: Store, records: seq<Scanned>): (r: seq<seq<byte>>)
    ensures |r| == |records|
  {
    seq(|records|, i requires 0 <= i < |records| => RawAt(s, records[i]))
  }

  lemma {:induction false} LogOfRecords(s: Store, records: seq<Scanned>, j: nat)
    ensures PassLog(HistoryOf(s, records), j, 0) == RawsAt(s, Filter(records, InFile(j)))
  {
    hide RawAt;
    if records == [] {
    } else {
      var init, x := records[..|records| - 1], records[|records| - 1];
      assert records == init + [x];
      LogOfRecords(s, init, j);
      assert HistoryOf(s, records)[..|init|] == HistoryOf(s, init);
      FilterConcat(init, [x], InFile(j));
      FilterAll([x], InFile(j), x.poolIdx == j);
      var f := Filter(init, InFile(j));
      assert RawsAt(s, f + [x]) == RawsAt(s, f) + [RawAt(s, x)];
      assert f + [] == f;
    }
  }

  lemma {:induction false} TilesConcat(s: Store, j: nat, records: seq<Scanned>, lo: nat, hi: nat)
    requires j < |s.files| && Tiles(records, lo, hi) && lo <= hi <= |s.files[j]|
    requires forall i :: 0 <= i < |records| ==> records[i].poolIdx == j
    ensures Concat(RawsAt(s, records)) == s.files[j][lo..hi]
  {
    if records == [] {
    } else {
      var mid := lo + records[0].size;
      TilesTotal(records[1..], mid, hi);
      assert RawsAt(s, records)[1..] == RawsAt(s, records[1..]);
      TilesConcat(s, j, records[1..], mid, hi);
      assert s.files[j][lo..hi] == s.files[j][lo..mid] + s.files[j][mid..hi];
    }
  }

  lemma StartFileLog(s: Store, now: Instant, j: nat)
    requires Valid(s) && UsedAsScanned(s, now) && j < |s.slots|
    ensures s.files[j][POOL_HEADER..POOL_HEADER + s.slots[j].used] == Concat(PassLog(Start(s, now).hist, j, 0))
  {
    hide ScanFrom, TotalSize, ScanAll, RawAt, Concat, Rebuild, PassLog, Filter, Tiles;
    LogOfRecords(s, ScanAll(s, now), j);
    FullScanByFile(s, j, now);
    FileRecords(s, j, now);
    ScanTiles(s.files[j], Origin(j, s.slots[j].poolId, now), POOL_HEADER);
    TilesConcat(s, j, FileScan(s, j, now), POOL_HEADER, POOL_HEADER + s.slots[j].used);
  }

  lemma StartShape(s: Store, now: Instant)
    requires Valid(s)
    ensures var r := Start(s, now);
            && r.sys.store == s && r.previous == s.files && r.remnants == [] && |r.turns| == |s.slots|
            && forall j :: 0 <= j < |s.slots| ==> r.turns[j] == 0
  {
    hide Valid, ScanAll, Rebuild, HistoryOf;
  }

  lemma StartLog(s: Store, now: Instant)
    requires Valid(s) && UsedAsScanned(s, now)
    ensures Inv(Start(s, now)) && UsedIsLog(Start(s, now))
  {
    hide Start, Inv, Ids, Concat, PassLog, UsedAsScanned;
    StartInv(s, now);
    StartShape(s, now);
    var r := Start(s, now);
    InvIds(r);
    forall j | 0 <= j < |r.turns|
      ensures r.sys.store.files[j][POOL_HEADER..POOL_HEADER + r.sys.store.slots[j].used]
              == Concat(PassLog(r.hist, j, r.turns[j]))
    {
      StartFileLog(s, now, j);
    }
  }

  // ---- the tail ----

  /** The byte that the failed record writes of pass `turn` of file `j` have left at position `k`. */
  function LastRemnant(rs: seq<Remnant>, j: nat, turn: nat, k: nat): Option<byte> {
    if rs == [] then None
    else
      var x := rs[|rs| - 1];
      if x.file == j && x.turn == turn && x.at <= k < x.at + |x.bytes| then Some(x.bytes[k - x.at])
      else LastRemnant(rs[..|rs| - 1], j, turn, k)
  }

  lemma {:induction false} NoRemnant(rs: seq<Remnant>, j: nat, turn: nat, k: nat)
    requires forall x :: x in rs && x.file == j && x.turn == turn ==> !(x.at <= k < x.at + |x.bytes|)
    ensures LastRemnant(rs, j, turn, k) == None
  {
    if rs == [] {
    } else {
      NoRemnant(rs[..|rs| - 1], j, turn, k);
    }
  }

  lemma RemnantSnoc(rs: seq<Remnant>, x: Remnant, j: nat, turn: nat, k: nat)
    ensures LastRemnant(rs + [x], j, turn, k)
            == if x.file == j && x.turn == turn && x.at <= k < x.at + |x.bytes| then Some(x.bytes[k - x.at])
               else LastRemnant(rs, j, turn, k)
  {
    assert (rs + [x])[..|rs|] == rs;
  }

  /** Failed writes belong to passes there have been. */
  ghost predicate RemnantsKnown(r: Run) {
    forall x :: x in r.remnants ==> x.file < |r.turns| && x.turn <= r.turns[x.file] && x.at >= POOL_HEADER
  }

  /** Where the used part of file `j` ends. */
  function Tail(r: Run, j: nat): nat
    requires j < |r.sys.store.slots|
  {
    POOL_HEADER + r.sys.store.slots[j].used
  }

  /** Behind the used part a file holds what it held when last rotated into, but for what failed record writes
      of its current pass have left there. */
  ghost predicate TailAt(r: Run, j: nat, k: nat)
    requires Ids(r) && j < |r.turns|
  {
    Tail(r, j) <= k < |r.sys.store.files[j]| ==>
      && k < |r.previous[j]|
      && r.sys.store.files[j][k] == (match LastRemnant(r.remnants, j, r.turns[j], k)
                                     case None => r.previous[j][k]
                                     case Some(b) => b)
  }

  ghost predicate Layered(r: Run)
    requires Ids(r)
  {
    RemnantsKnown(r) && forall j: nat, k: nat :: j < |r.turns| ==> TailAt(r, j, k)
  }

  lemma RotatedTailAt(r: Run, now: Instant, io: Io, j: nat, k: nat)
    requires Ids(r) && RemnantsKnown(r) && Ids(Rotated(r, now, io)) && j < |r.turns| && TailAt(r, j, k)
    ensures TailAt(Rotated(r, now, io), j, k)
  {
    hide PoolHeader, PoolIdAfter;
    NoRemnant(r.remnants, j, r.turns[j] + 1, k);
    hide LastRemnant;
  }

  lemma RotatedTail(r: Run, now: Instant, io: Io)
    requires Ids(r) && Layered(r) && Ids(Rotated(r, now, io))
    ensures Layered(Rotated(r, now, io))
  {
    hide TailAt, Rotate, PoolIdAfter;
    forall j: nat, k: nat | j < |r.turns| ensures TailAt(Rotated(r, now, io), j, k) {
      RotatedTailAt(r, now, io, j, k);
    }
  }

  /** One record write, byte by byte: its own bytes, as far as they got, and everything else as before. */
  lemma WrittenBytes(s: Store, q: Request, io: Io, k: nat)
    requires Valid(s) && !Full(s, RecordSize(q))
    ensures var s', w := WriteRecord(s, q, io).0, s.writeIdx;
            var at, bytes := POOL_HEADER + s.slots[w].used, Written(EncodeRecord(q), io);
            && |s'.files| == |s.files| && |s'.files[w]| == |s.files[w]| && |bytes| <= |EncodeRecord(q)| == RecordSize(q)
            && at + RecordSize(q) <= |s.files[w]| && |s'.slots| == |s.slots|
            && (forall j: nat :: j < |s.files| && j != w ==> s'.files[j] == s.files[j] && s'.slots[j] == s.slots[j])
            && s'.slots[w].used == s.slots[w].used + (if io.Done? then RecordSize(q) else 0)
            && (k < |s.files[w]| ==>
                  s'.files[w][k] == if at <= k < at + |bytes| then bytes[k - at] else s.files[w][k])
  {
    hide EncodeHeader;
    assert |EncodeRecord(q)| == RecordSize(q);
    hide EncodeRecord;
  }

  lemma RecordedRemnants(r: Run, q: Request, io: Io)
    requires Valid(r.sys.store) && Sized(r) && !Full(r.sys.store, RecordSize(q))
    ensures var r', w := Recorded(r, q, io), r.sys.store.writeIdx;
            && r'.turns == r.turns && r'.previous == r.previous && r'.sys.store == WriteRecord(r.sys.store, q, io).0
            && r'.remnants == (if io.Done? then r.remnants
                               else r.remnants + [Remnant(w, r.turns[w], Tail(r, w), Written(EncodeRecord(q), io))])
  {
    hide EncodeRecord, Insert, Patch, Valid;
  }

  lemma RecordedTailAt(r: Run, q: Request, io: Io, j: nat, k: nat)
    requires Ids(r) && !Full(r.sys.store, RecordSize(q)) && Ids(Recorded(r, q, io)) && j < |r.turns| && TailAt(r, j, k)
    ensures TailAt(Recorded(r, q, io), j, k)
  {
    hide PoolIdAfter, WriteRecord, EncodeRecord, Written, LastRemnant;
    WrittenBytes(r.sys.store, q, io, k);
    RecordedRemnants(r, q, io);
    var w := r.sys.store.writeIdx;
    if io.Failed? {
      RemnantSnoc(r.remnants, Remnant(w, r.turns[w], Tail(r, w), Written(EncodeRecord(q), io)), j, r.turns[j], k);
    }
    hide Recorded;
  }

  lemma RecordedTail(r: Run, q: Request, io: Io)
    requires Ids(r) && Layered(r) && !Full(r.sys.store, RecordSize(q)) && Ids(Recorded(r, q, io))
    ensures Layered(Recorded(r, q, io))
  {
    hide PoolIdAfter, WriteRecord, EncodeRecord, Written, TailAt;
    RecordedRemnants(r, q, io);
    hide Recorded;
    forall j: nat, k: nat | j < |r.turns| ensures TailAt(Recorded(r, q, io), j, k) {
      RecordedTailAt(r, q, io, j, k);
    }
  }

  lemma EvictedTail(r: Run)
    requires Inv(r) && Ids(r) && Layered(r)
    ensures Inv(Evicted(r)) && Ids(Evicted(r)) && Layered(Evicted(r))
    ensures forall m :: m in Evicted(r).sys.index.entries ==> m.loc.poolIdx != NextIdx(r.sys.store)
  {
    EvictedInv(r);
    hide Evict, PoolIdAfter, LiveIntact, IndexLive, History, LastRemnant;
    forall j: nat, k: nat | j < |r.turns| ensures TailAt(Evicted(r), j, k) {
      assert TailAt(r, j, k);
    }
  }

  lemma RunStepTail(r: Run, op: Op)
    requires Inv(r) && Layered(r)
    ensures Inv(RunStep(r, op)) && Layered(RunStep(r, op))
  {
    hide Rotate, WriteRecord, Insert, Evict, Inv, Ids, Layered;
    InvIds(r);
    RunStepInv(r, op);
    InvIds(RunStep(r, op));
    EmptyAfterRotate(r.sys.store, op.env.now, op.env.header);
    var full := Full(r.sys.store, RecordSize(op.req));
    var r1 := if full then Evicted(r) else r;
    if full {
      EvictedTail(r);
    }
    if RecordSize(op.req) <= r.sys.store.capacity {
      if full {
        var r2 := Rotated(r1, op.env.now, op.env.header);
        RotatedInv(r1, op.env.now, op.env.header);
        InvIds(r2);
        RotatedTail(r1, op.env.now, op.env.header);
        if op.env.header.Done? {
          RecordedTail(r2, op.req, op.env.record);
        }
      } else {
        RecordedTail(r, op.req, op.env.record);
      }
    }
  }

  /** Over every run, whatever fails. */
  lemma {:induction false} RunAllTail(r: Run, ops: seq<Op>)
    requires Inv(r) && Layered(r)
    ensures Inv(RunAll(r, ops)) && Layered(RunAll(r, ops))
  {
    hide Inv, RunStep, Layered, Ids, Valid, Sized;
    InvIds(r);
    if ops == [] {
    } else {
      RunAllTail(r, ops[..|ops| - 1]);
      RunStepTail(RunAll(r, ops[..|ops| - 1]), ops[|ops| - 1]);
    }
  }

  /** A failed record write of the current pass of file `j` has left bytes behind its used part. */
  ghost predicate Torn(r: Run, j: nat)
    requires j < |r.turns| && j < |r.sys.store.slots|
  {
    exists x :: x in r.remnants && x.file == j && x.turn == r.turns[j] && x.at + |x.bytes| > Tail(r, j)
  }

  /** Otherwise all of its previous content is still there. */
  lemma UntornTail(r: Run, j: nat)
    requires Ids(r) && Layered(r) && j < |r.turns| && !Torn(r, j)
    ensures r.sys.store.files[j][Tail(r, j)..] == r.previous[j][Tail(r, j)..]
  {
    hide PoolIdAfter, LastRemnant;
    var f, p, tail := r.sys.store.files[j], r.previous[j], Tail(r, j);
    assert |f| == |p|;
    forall i | 0 <= i < |f| - tail ensures f[tail..][i] == p[tail..][i] {
      var k: nat := tail + i;
      assert TailAt(r, j, k);
      NoRemnant(r.remnants, j, r.turns[j], k);
    }
  }

  // ---- the pass before ----

  /** What a file held when last rotated into began with the records of the pass that ended there. */
  ghost predicate PreviousIsLog(r: Run)
    requires Ids(r)
  {
    forall j: nat :: j < |r.turns| && r.turns[j] > 0 ==> StartsWithPass(r, j)
  }

  ghost predicate StartsWithPass(r: Run, j: nat)
    requires Ids(r) && j < |r.turns| && r.turns[j] > 0
  {
    var log := Concat(PassLog(r.hist, j, r.turns[j] - 1));
    POOL_HEADER + |log| <= |r.previous[j]| && r.previous[j][POOL_HEADER..POOL_HEADER + |log|] == log
  }

  lemma RotatedPrevious(r: Run, now: Instant, io: Io)
    requires Ids(r) && UsedIsLog(r) && PreviousIsLog(r) && Ids(Rotated(r, now, io))
    ensures PreviousIsLog(Rotated(r, now, io))
  {
    hide PoolIdAfter, Rotate, PassLog, Concat;
    var r' := Rotated(r, now, io);
    forall j: nat | j < |r'.turns| && r'.turns[j] > 0 ensures StartsWithPass(r', j) {
      if j == NextIdx(r.sys.store) {
        assert r.sys.store.files[j][POOL_HEADER..POOL_HEADER + r.sys.store.slots[j].used]
               == Concat(PassLog(r.hist, j, r.turns[j]));
      } else {
        assert StartsWithPass(r, j);
      }
    }
  }

  /** A new record belongs to the current pass of its file and to no other. */
  lemma OtherPassLog(r: Run, q: Request, io: Io, j: nat, turn: nat)
    requires Valid(r.sys.store) && Sized(r) && !Full(r.sys.store, RecordSize(q))
    requires j != r.sys.store.writeIdx || turn != r.turns[j]
    ensures PassLog(Recorded(r, q, io).hist, j, turn) == PassLog(r.hist, j, turn)
  {
    hide EncodeRecord, Insert, Patch, Valid;
    var r' := Recorded(r, q, io);
    if io.Done? {
      assert r'.hist[..|r'.hist| - 1] == r.hist;
      assert PassLog(r.hist, j, turn) + [] == PassLog(r.hist, j, turn);
    }
  }

  lemma RecordedPrevious(r: Run, q: Request, io: Io)
    requires Ids(r) && PreviousIsLog(r) && !Full(r.sys.store, RecordSize(q)) && Ids(Recorded(r, q, io))
    ensures PreviousIsLog(Recorded(r, q, io))
  {
    hide PoolIdAfter, PassLog, Concat, WriteRecord, Insert, EncodeRecord;
    var r' := Recorded(r, q, io);
    forall j: nat | j < |r'.turns| && r'.turns[j] > 0 ensures StartsWithPass(r', j) {
      OtherPassLog(r, q, io, j, r.turns[j] - 1);
      assert StartsWithPass(r, j);
    }
  }

  lemma EvictedPrevious(r: Run)
    requires Inv(r) && PreviousIsLog(r) && UsedIsLog(r)
    ensures Inv(Evicted(r)) && PreviousIsLog(Evicted(r)) && UsedIsLog(Evicted(r))
    ensures forall m :: m in Evicted(r).sys.index.entries ==> m.loc.poolIdx != NextIdx(r.sys.store)
  {
    EvictedInv(r);
    hide Evict, PoolIdAfter, LiveIntact, IndexLive, History, PassLog, Concat;
    forall j: nat | j < |r.turns| && r.turns[j] > 0 ensures StartsWithPass(Evicted(r), j) {
      assert StartsWithPass(r, j);
    }
  }

  lemma RunStepPrevious(r: Run, op: Op)
    requires Inv(r) && UsedIsLog(r) && PreviousIsLog(r)
    ensures Inv(RunStep(r, op)) && UsedIsLog(RunStep(r, op)) && PreviousIsLog(RunStep(r, op))
  {
    hide Rotate, WriteRecord, Insert, Evict, Inv, Ids, PreviousIsLog, UsedIsLog;
    InvIds(r);
    RunStepLog(r, op);
    InvIds(RunStep(r, op));
    EmptyAfterRotate(r.sys.store, op.env.now, op.env.header);
    var full := Full(r.sys.store, RecordSize(op.req));
    var r1 := if full then Evicted(r) else r;
    if full {
      EvictedPrevious(r);
      InvIds(r1);
    }
    if RecordSize(op.req) <= r.sys.store.capacity {
      if full {
        var r2 := Rotated(r1, op.env.now, op.env.header);
        RotatedInv(r1, op.env.now, op.env.header);
        InvIds(r2);
        RotatedPrevious(r1, op.env.now, op.env.header);
        if op.env.header.Done? {
          RecordedPrevious(r2, op.req, op.env.record);
        }
      } else {
        RecordedPrevious(r, op.req, op.env.record);
      }
    }
  }

  /** Holds over every run, failed writes included. */
  lemma {:induction false} RunAllPrevious(r: Run, ops: seq<Op>)
    requires Inv(r) && UsedIsLog(r) && PreviousIsLog(r)
    ensures Inv(RunAll(r, ops)) && UsedIsLog(RunAll(r, ops)) && PreviousIsLog(RunAll(r, ops))
  {
    hide Inv, RunStep, UsedIsLog, PreviousIsLog, Ids, Valid, Sized;
    InvIds(r);
    if ops == [] {
    } else {
      RunAllPrevious(r, ops[..|ops| - 1]);
      RunStepPrevious(RunAll(r, ops[..|ops| - 1]), ops[|ops| - 1]);
    }
  }

  // ---- the round trip ----

  /** After any run of a restarted system, scanning file `j` yields the records of its current pass, in order,
      as a prefix. It yields nothing more exactly when no fitting record header stands at the write tail. */
  lemma ScanFindsLog(s: Store, now: Instant, ops: seq<Op>, j: nat, o: Origin)
    requires Valid(s) && UsedAsScanned(s, now) && j < |s.slots|
    requires AllSelfDescribing(PassLog(RunAll(Start(s, now), ops).hist, j, RunAll(Start(s, now), ops).turns[j]))
    ensures var r := RunAll(Start(s, now), ops);
            var f, tail := r.sys.store.files[j], POOL_HEADER + r.sys.store.slots[j].used;
            var log := PassLog(r.hist, j, r.turns[j]);
            && ScanFrom(f, o, POOL_HEADER) == Listing(log, o, POOL_HEADER) + ScanFrom(f, o, tail)
            && (ScanFrom(f, o, POOL_HEADER) == Listing(log, o, POOL_HEADER) <==> !Fits(f, tail))
  {
    hide RunAll, Start, Inv, Fits;
    StartLog(s, now);
    RunAllLog(Start(s, now), ops);
    RunExtends(Start(s, now), ops);
    var r := RunAll(Start(s, now), ops);
    assert Ids(r) && |r.turns| == |s.slots| by {
      InvIds(r);
    }
    var f, used := r.sys.store.files[j], r.sys.store.slots[j].used;
    var log := PassLog(r.hist, j, r.turns[j]);
    assert f[POOL_HEADER..POOL_HEADER + used] == Concat(log);
    assert |Concat(log)| == used;
    ScanOfRecords(f, o, POOL_HEADER, log);
    var more := ScanFrom(f, o, POOL_HEADER + used);
    assert |Listing(log, o, POOL_HEADER) + more| == |Listing(log, o, POOL_HEADER)| + |more|;
    assert Listing(log, o, POOL_HEADER) + [] == Listing(log, o, POOL_HEADER);
  }

  /** Unless a failed record write of the current pass has left bytes behind the tail of file `j`, what a scan
      finds there is what it would have found from that offset on in the file's previous content; writes that
      failed in other files or passes do not matter. When the write tail stands on the boundary after the
      previous content's first `k` records, that is exactly the remaining ones. */
  lemma ScanFindsRemains(s: Store, now: Instant, ops: seq<Op>, j: nat, o: Origin, k: nat)
    requires Valid(s) && UsedAsScanned(s, now) && j < |s.slots| && !Torn(RunAll(Start(s, now), ops), j)
    ensures var r := RunAll(Start(s, now), ops);
            var f, tail := r.sys.store.files[j], POOL_HEADER + r.sys.store.slots[j].used;
            var before := ScanFrom(r.previous[j], o, POOL_HEADER);
            && ScanFrom(f, o, tail) == ScanFrom(r.previous[j], o, tail)
            && (k <= |before| && tail == POOL_HEADER + TotalSize(before[..k]) ==> ScanFrom(f, o, tail) == before[k..])
  {
    hide RunAll, Inv, ScanFrom, TotalSize, Start, Layered, Torn, UsedIsLog, UsedAsScanned, Ids, PreviousIsLog;
    StartTails(s, now);
    var r0 := Start(s, now);
    RunAllTail(r0, ops);
    RunExtends(r0, ops);
    var r := RunAll(r0, ops);
    InvIds(r);
    UntornTail(r, j);
    var f, tail := r.sys.store.files[j], POOL_HEADER + r.sys.store.slots[j].used;
    SameLengths(r, j);
    ScanSameTail(f, r.previous[j], o, tail);
    if k <= |ScanFrom(r.previous[j], o, POOL_HEADER)| {
      ScanFromBoundary(r.previous[j], o, POOL_HEADER, k);
    }
  }

  lemma SameLengths(r: Run, j: nat)
    requires Ids(r) && j < |r.turns|
    ensures Tail(r, j) <= |r.sys.store.files[j]| == |r.previous[j]|
  {
    hide PoolIdAfter;
  }

  lemma {:induction false} ConcatSplit(raws: seq<seq<byte>>, k: nat)
    requires k <= |raws|
    ensures Concat(raws) == Concat(raws[..k]) + Concat(raws[k..])
  {
    if k == 0 {
      assert raws[..0] == [] && raws[0..] == raws;
    } else {
      ConcatSplit(raws[1..], k - 1);
      assert raws[..k][1..] == raws[1..][..k - 1] && raws[1..][k - 1..] == raws[k..];
    }
  }

  lemma StartTails(s: Store, now: Instant)
    requires Valid(s) && UsedAsScanned(s, now)
    ensures Inv(Start(s, now)) && UsedIsLog(Start(s, now)) && Layered(Start(s, now)) && PreviousIsLog(Start(s, now))
  {
    hide Start, Inv, UsedIsLog, PassLog, Concat, UsedAsScanned;
    StartLog(s, now);
    StartShape(s, now);
    InvIds(Start(s, now));
    assert forall j: nat, k: nat :: j < |s.slots| ==> TailAt(Start(s, now), j, k);
  }

  /** The same in terms of accepted records: when the write tail stands on the boundary after the first `k`
      records of the pass before, what follows the current pass in the scan is exactly the remaining records of
      that earlier pass, and then what the scan found behind it. */
  lemma ScanFindsOldPass(s: Store, now: Instant, ops: seq<Op>, j: nat, o: Origin, k: nat)
    requires Valid(s) && UsedAsScanned(s, now) && j < |s.slots| && !Torn(RunAll(Start(s, now), ops), j)
    requires RunAll(Start(s, now), ops).turns[j] > 0
    requires var r := RunAll(Start(s, now), ops);
             var earlier := PassLog(r.hist, j, r.turns[j] - 1);
             && k <= |earlier| && AllSelfDescribing(earlier) && AllSelfDescribing(PassLog(r.hist, j, r.turns[j]))
             && POOL_HEADER + r.sys.store.slots[j].used == POOL_HEADER + |Concat(earlier[..k])|
    ensures var r := RunAll(Start(s, now), ops);
            var log, earlier := PassLog(r.hist, j, r.turns[j]), PassLog(r.hist, j, r.turns[j] - 1);
            var tail := POOL_HEADER + r.sys.store.slots[j].used;
            && AllSelfDescribing(earlier[k..]) && POOL_HEADER + |Concat(earlier)| <= |r.previous[j]|
            && ScanFrom(r.sys.store.files[j], o, POOL_HEADER)
               == Listing(log, o, POOL_HEADER) + Listing(earlier[k..], o, tail)
                  + ScanFrom(r.previous[j], o, POOL_HEADER + |Concat(earlier)|)
  {
    hide RunAll, Start, Inv, ScanFrom, Listing, UsedIsLog, Layered, Torn, UsedAsScanned, Concat, PassLog,
      SelfDescribing;
    StartTails(s, now);
    var r0 := Start(s, now);
    RunAllPrevious(r0, ops);
    RunExtends(r0, ops);
    ScanFindsLog(s, now, ops, j, o);
    ScanFindsRemains(s, now, ops, j, o, 0);
    var r := RunAll(r0, ops);
    InvIds(r);
    assert StartsWithPass(r, j);
    var earlier := PassLog(r.hist, j, r.turns[j] - 1);
    OldPassFrom(r.previous[j], o, earlier, k);
  }

  lemma OldPassFrom(f: seq<byte>, o: Origin, earlier: seq<seq<byte>>, k: nat)
    requires AllSelfDescribing(earlier) && k <= |earlier| && POOL_HEADER + |Concat(earlier)| <= |f|
    requires f[POOL_HEADER..POOL_HEADER + |Concat(earlier)|] == Concat(earlier)
    ensures AllSelfDescribing(earlier[k..])
    ensures var tail := POOL_HEADER + |Concat(earlier[..k])|;
            ScanFrom(f, o, tail) == Listing(earlier[k..], o, tail) + ScanFrom(f, o, POOL_HEADER + |Concat(earlier)|)
  {
    hide ScanFrom, Listing, SelfDescribing, Concat;
    ConcatSplit(earlier, k);
    LaidOut(f, POOL_HEADER, Concat(earlier[..k]), Concat(earlier[k..]));
    ScanOfRecords(f, o, POOL_HEADER + |Concat(earlier[..k])|, earlier[k..]);
  }
}
