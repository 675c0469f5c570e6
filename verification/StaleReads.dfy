/** What reading an old location gives: the pool id in it is not checked, so a location looked up before its
    file was rotated into still reads something. Here is exactly what, after any number of rotations. */
module StaleReads {
  import opened Bytes
  import opened RecordFormat
  import opened PoolScan
  import opened PoolModel
  import opened IndexModel
  import opened WriterModel
  import opened Recovery
  import opened ScanRoundTrip

  /** The byte a pass of file `j` after pass `since` has put at position `k`: that of the last pass up to `turn`
      whose records, or whose failed writes behind them, reach it. */
  function Overwritten(hist: seq<Accepted>, rs: seq<Remnant>, j: nat, turn: nat, since: nat, k: nat): Option<byte>
    requires k >= POOL_HEADER
  {
    if turn <= since then None
    else
      var log := Concat(PassLog(hist, j, turn));
      if k - POOL_HEADER < |log| then Some(log[k - POOL_HEADER])
      else if LastRemnant(rs, j, turn, k).Some? then LastRemnant(rs, j, turn, k)
      else Overwritten(hist, rs, j, turn - 1, since, k)
  }

  predicate Inside(h: Accepted, k: nat) {
    POOL_HEADER <= h.meta.loc.offset <= k < End(h) && h.meta.loc.size == |h.raw|
  }

  /** The byte at `k`, once part of `h`, when file rotations have got to `turn`. */
  function NowAt(r: Run, h: Accepted, turn: nat, k: nat): byte
    requires Inside(h, k)
  {
    match Overwritten(r.hist, r.remnants, h.meta.loc.poolIdx, turn, h.turn, k)
    case None => h.raw[k - h.meta.loc.offset]
    case Some(b) => b
  }

  ghost predicate TracedAt(r: Run, i: nat, k: nat)
    requires Ids(r) && i < |r.hist|
  {
    var j := r.hist[i].meta.loc.poolIdx;
    Inside(r.hist[i], k) ==>
      j < |r.turns| && k < |r.sys.store.files[j]| && r.sys.store.files[j][k] == NowAt(r, r.hist[i], r.turns[j], k)
  }

  /** Every byte ever written as part of a record is still there unless a later pass has gone over it. */
  ghost predicate BytesTraced(r: Run)
    requires Ids(r)
  {
    forall i: nat, k: nat :: i < |r.hist| ==> TracedAt(r, i, k)
  }

  // ---- every run keeps it ----

  lemma RotatedTracedAt(r: Run, now: Instant, io: Io, i: nat, k: nat)
    requires Inv(r) && Ids(r) && Ids(Rotated(r, now, io)) && RemnantsKnown(r) && i < |r.hist| && TracedAt(r, i, k)
    ensures TracedAt(Rotated(r, now, io), i, k)
  {
    hide PoolIdAfter, KeyLe, PoolHeader, PassLog, Concat, IndexLive, LiveIntact;
    var v, r' := NextIdx(r.sys.store), Rotated(r, now, io);
    var h := r.hist[i];
    assert Placement(r, h);
    if Inside(h, k) && h.meta.loc.poolIdx == v {
      forall m | 0 <= m < |r.hist| ensures r.hist[m].meta.loc.poolIdx != v || r.hist[m].turn != r.turns[v] + 1 {
        assert Placement(r, r.hist[m]);
      }
      PassLogEmpty(r.hist, v, r.turns[v] + 1);
      NoRecordsNoBytes();
      NoRemnant(r.remnants, v, r.turns[v] + 1, k);
      hide Inv, History, LastRemnant;
      assert Overwritten(r.hist, r.remnants, v, r.turns[v] + 1, h.turn, k)
             == Overwritten(r.hist, r.remnants, v, r.turns[v], h.turn, k);
    }
  }

  lemma {:induction false} OverwrittenKept(r: Run, r': Run, j: nat, turn: nat, since: nat, k: nat)
    requires k >= POOL_HEADER && forall t: nat :: t <= turn ==> PassLog(r.hist, j, t) == PassLog(r'.hist, j, t)
    requires forall t: nat :: t <= turn ==> LastRemnant(r.remnants, j, t, k) == LastRemnant(r'.remnants, j, t, k)
    ensures Overwritten(r.hist, r.remnants, j, turn, since, k) == Overwritten(r'.hist, r'.remnants, j, turn, since, k)
  {
    hide PassLog, Concat, LastRemnant;
    if turn <= since {
    } else {
      OverwrittenKept(r, r', j, turn - 1, since, k);
    }
  }

  /** Passes other than the current one of the file written are as they were. */
  lemma OldPassesKept(r: Run, q: Request, io: Io, j: nat, turn: nat, since: nat, k: nat)
    requires Valid(r.sys.store) && Sized(r) && !Full(r.sys.store, RecordSize(q)) && k >= POOL_HEADER
    requires j != r.sys.store.writeIdx || turn < r.turns[j]
    ensures var r' := Recorded(r, q, io);
            Overwritten(r'.hist, r'.remnants, j, turn, since, k) == Overwritten(r.hist, r.remnants, j, turn, since, k)
  {
    hide PassLog, Concat, Recorded, LastRemnant, WriteRecord, EncodeRecord, Written;
    var r', w := Recorded(r, q, io), r.sys.store.writeIdx;
    RecordedRemnants(r, q, io);
    forall t: nat | t <= turn
      ensures PassLog(r'.hist, j, t) == PassLog(r.hist, j, t)
      ensures LastRemnant(r'.remnants, j, t, k) == LastRemnant(r.remnants, j, t, k)
    {
      OtherPassLog(r, q, io, j, t);
      if io.Failed? {
        RemnantSnoc(r.remnants, Remnant(w, r.turns[w], Tail(r, w), Written(EncodeRecord(q), io)), j, t, k);
      }
    }
    OverwrittenKept(r', r, j, turn, since, k);
  }

  lemma NewRecordTraced(r: Run, q: Request, k: nat)
    requires Inv(r) && Ids(r) && !Full(r.sys.store, RecordSize(q)) && Ids(Recorded(r, q, Done))
    ensures |Recorded(r, q, Done).hist| == |r.hist| + 1 && TracedAt(Recorded(r, q, Done), |r.hist|, k)
  {
    hide PoolIdAfter, Inv, PassLog, Concat, EncodeHeader, Insert, LastRemnant;
    WrittenBytes(r.sys.store, q, Done, k);
    hide Patch, EncodeRecord;
  }

  /** The current pass of the file written, at position `k`, before and after. */
  lemma CurrentPass(r: Run, q: Request, io: Io, since: nat, k: nat)
    requires Inv(r) && Ids(r) && UsedIsLog(r) && !Full(r.sys.store, RecordSize(q)) && Ids(Recorded(r, q, io))
    requires k >= POOL_HEADER && since < r.turns[r.sys.store.writeIdx]
    ensures var r', w, at := Recorded(r, q, io), r.sys.store.writeIdx, Tail(r, r.sys.store.writeIdx);
            var bytes := Written(EncodeRecord(q), io);
            Overwritten(r'.hist, r'.remnants, w, r.turns[w], since, k)
            == if at <= k < at + |bytes| then Some(bytes[k - at])
               else Overwritten(r.hist, r.remnants, w, r.turns[w], since, k)
  {
    hide PoolIdAfter, PassLog, Concat, WriteRecord, EncodeRecord, LastRemnant, Inv, Written;
    var r', w := Recorded(r, q, io), r.sys.store.writeIdx;
    var log := PassLog(r.hist, w, r.turns[w]);
    assert r.sys.store.files[w][POOL_HEADER..Tail(r, w)] == Concat(log);
    assert |Concat(log)| == Tail(r, w) - POOL_HEADER;
    OldPassesKept(r, q, io, w, r.turns[w] - 1, since, k);
    RecordedRemnants(r, q, io);
    if io.Done? {
      RecordedFileLog(r, q);
      ConcatSnoc(log, EncodeRecord(q));
      WholeWritten(EncodeRecord(q));
    } else {
      RecordedShape(r, q, io);
      RemnantSnoc(r.remnants, Remnant(w, r.turns[w], Tail(r, w), Written(EncodeRecord(q), io)), w, r.turns[w], k);
    }
    hide Recorded;
  }

  lemma WholeWritten(data: seq<byte>)
    ensures Written(data, Done) == data
  {
  }

  lemma OldRecordTraced(r: Run, q: Request, io: Io, i: nat, k: nat)
    requires Inv(r) && Ids(r) && UsedIsLog(r) && !Full(r.sys.store, RecordSize(q)) && Ids(Recorded(r, q, io))
    requires i < |r.hist| && TracedAt(r, i, k)
    ensures r.hist <= Recorded(r, q, io).hist && TracedAt(Recorded(r, q, io), i, k)
  {
    hide PoolIdAfter, PassLog, Concat, WriteRecord, EncodeRecord, IndexLive, KeyLe, LastRemnant, Overwritten, Written;
    var s, r' := r.sys.store, Recorded(r, q, io);
    var w, h := s.writeIdx, r.hist[i];
    WrittenBytes(s, q, io, k);
    RecordedRemnants(r, q, io);
    GrownHistory(r, q, io);
    assert Placement(r, h) && (Live(r, h) ==> Intact(s, h));
    var j := h.meta.loc.poolIdx;
    hide Recorded, Inv, History, LiveIntact, UsedIsLog;
    if Inside(h, k) {
      if j != w {
        OldPassesKept(r, q, io, j, r.turns[j], h.turn, k);
      } else if h.turn < r.turns[w] {
        CurrentPass(r, q, io, h.turn, k);
      } else {
        NothingSince(r.hist, r.remnants, w, h.turn, k);
        NothingSince(r'.hist, r'.remnants, w, h.turn, k);
      }
    }
  }

  lemma NothingSince(hist: seq<Accepted>, rs: seq<Remnant>, j: nat, turn: nat, k: nat)
    requires k >= POOL_HEADER
    ensures Overwritten(hist, rs, j, turn, turn, k) == None
  {
  }

  lemma GrownHistory(r: Run, q: Request, io: Io)
    requires Valid(r.sys.store) && Sized(r) && !Full(r.sys.store, RecordSize(q))
    ensures var r' := Recorded(r, q, io);
            r.hist <= r'.hist && |r'.hist| == |r.hist| + (if io.Done? then 1 else 0)
  {
    hide EncodeRecord, Patch, Insert;
  }

  lemma RecordedTraced(r: Run, q: Request, io: Io)
    requires Inv(r) && Ids(r) && UsedIsLog(r) && BytesTraced(r) && !Full(r.sys.store, RecordSize(q))
    requires Ids(Recorded(r, q, io))
    ensures BytesTraced(Recorded(r, q, io))
  {
    hide Inv, Ids, UsedIsLog, TracedAt, Recorded;
    InvIds(r);
    GrownHistory(r, q, io);
    forall i: nat, k: nat | i < |Recorded(r, q, io).hist| ensures TracedAt(Recorded(r, q, io), i, k) {
      if i < |r.hist| {
        OldRecordTraced(r, q, io, i, k);
      } else {
        NewRecordTraced(r, q, k);
      }
    }
  }

  lemma RotatedTraced(r: Run, now: Instant, io: Io)
    requires Inv(r) && Ids(r) && RemnantsKnown(r) && BytesTraced(r) && Ids(Rotated(r, now, io))
    ensures BytesTraced(Rotated(r, now, io))
  {
    hide Inv, Ids, TracedAt, RemnantsKnown;
    InvIds(r);
    forall i: nat, k: nat | i < |r.hist| ensures TracedAt(Rotated(r, now, io), i, k) {
      RotatedTracedAt(r, now, io, i, k);
    }
  }

  lemma EvictedTraced(r: Run)
    requires Traced(r)
    ensures Traced(Evicted(r))
    ensures forall m :: m in Evicted(r).sys.index.entries ==> m.loc.poolIdx != NextIdx(r.sys.store)
  {
    EvictedTail(r);
    hide Evict, PoolIdAfter, LiveIntact, IndexLive, History, PassLog, Concat, NowAt, Layered, Inv;
    forall i: nat, k: nat | i < |r.hist| ensures TracedAt(Evicted(r), i, k) {
      assert TracedAt(r, i, k);
    }
  }

  /** Every byte on disk behind the file headers is accounted for. */
  ghost predicate Traced(r: Run) {
    Inv(r) && Ids(r) && UsedIsLog(r) && Layered(r) && BytesTraced(r)
  }

  lemma RunStepTraced(r: Run, op: Op)
    requires Traced(r)
    ensures Valid(r.sys.store) && Sized(r) && Traced(RunStep(r, op))
  {
    hide Rotate, WriteRecord, Insert, Evict, Inv, Ids, BytesTraced, UsedIsLog, Layered;
    InvIds(r);
    RunStepLog(r, op);
    RunStepTail(r, op);
    InvIds(RunStep(r, op));
    EmptyAfterRotate(r.sys.store, op.env.now, op.env.header);
    var full := Full(r.sys.store, RecordSize(op.req));
    var r1 := if full then Evicted(r) else r;
    if full {
      EvictedTraced(r);
    }
    if RecordSize(op.req) <= r.sys.store.capacity {
      if full {
        var r2 := Rotated(r1, op.env.now, op.env.header);
        TurnedTraced(r1, op.env.now, op.env.header);
        if op.env.header.Done? {
          RecordedTraced(r2, op.req, op.env.record);
        }
      } else {
        RecordedTraced(r, op.req, op.env.record);
      }
    }
  }

  lemma TurnedTraced(r: Run, now: Instant, io: Io)
    requires Traced(r) && Valid(r.sys.store) && Sized(r)
    requires forall m :: m in r.sys.index.entries ==> m.loc.poolIdx != NextIdx(r.sys.store)
    ensures Traced(Rotated(r, now, io))
  {
    hide Rotate, Inv, Ids, BytesTraced, UsedIsLog, Layered;
    var r2 := Rotated(r, now, io);
    RotatedInv(r, now, io);
    InvIds(r2);
    RotatedLog(r, now, io);
    RotatedTail(r, now, io);
    KnownRemnants(r);
    RotatedTraced(r, now, io);
  }

  lemma KnownRemnants(r: Run)
    requires Ids(r) && Layered(r)
    ensures RemnantsKnown(r)
  {
  }

  /** Over every run, whatever fails. */
  lemma {:induction false} RunAllTraced(r: Run, ops: seq<Op>)
    requires Traced(r)
    ensures Valid(r.sys.store) && Sized(r) && Traced(RunAll(r, ops))
  {
    TracedValid(r);
    hide Traced, RunStep, Valid, Sized;
    if ops == [] {
    } else {
      RunAllTraced(r, ops[..|ops| - 1]);
      RunStepTraced(RunAll(r, ops[..|ops| - 1]), ops[|ops| - 1]);
    }
  }

  lemma TracedValid(r: Run)
    requires Traced(r)
    ensures Valid(r.sys.store) && Sized(r)
  {
    hide Inv, UsedIsLog, Layered, BytesTraced;
  }

  lemma StartTraced(s: Store, now: Instant)
    requires Valid(s) && UsedAsScanned(s, now)
    ensures Traced(Start(s, now))
  {
    hide UsedIsLog, Start, Inv, UsedAsScanned, Layered, PreviousIsLog;
    StartTails(s, now);
    StartShape(s, now);
    var r := Start(s, now);
    InvIds(r);
    forall i: nat, k: nat | i < |r.hist| ensures TracedAt(r, i, k) {
      NeverRotated(r, i, k);
    }
  }

  lemma NeverRotated(r: Run, i: nat, k: nat)
    requires Inv(r) && Ids(r) && i < |r.hist| && forall j :: 0 <= j < |r.turns| ==> r.turns[j] == 0
    ensures TracedAt(r, i, k)
  {
    hide PoolIdAfter, KeyLe, PassLog, Concat;
    var h := r.hist[i];
    assert Placement(r, h) && Live(r, h) && Intact(r.sys.store, h);
    if Inside(h, k) {
      var f := r.sys.store.files[h.meta.loc.poolIdx];
      assert f[h.meta.loc.offset..End(h)][k - h.meta.loc.offset] == f[k];
    }
  }

  // ---- what a stale location reads ----

  /** No later pass of its file, by a record or by a failed write, has put a different byte into the payload of
      record `i`. */
  ghost predicate Unharmed(r: Run, i: nat)
    requires Sized(r) && i < |r.hist| && r.hist[i].meta.loc.poolIdx < |r.turns|
  {
    var h := r.hist[i];
    forall k: nat :: Inside(h, k) && k >= h.meta.loc.offset + RECORD_HEADER ==>
      NowAt(r, h, r.turns[h.meta.loc.poolIdx], k) == h.raw[k - h.meta.loc.offset]
  }

  /** Reading a location gives its record's payload exactly when that is so, however often the file has been
      rotated into since. */
  lemma StaleReadIff(r: Run, i: nat)
    requires Inv(r) && Ids(r) && BytesTraced(r) && i < |r.hist|
    ensures var h := r.hist[i];
            && h.meta.loc.poolIdx < |r.turns| && |h.raw| >= RECORD_HEADER && Addressable(r.sys.store, h.meta.loc)
            && (ReadSegment(r.sys.store, h.meta.loc) == Some(Payload(h)) <==> Unharmed(r, i))
  {
    hide PoolIdAfter, KeyLe, NowAt, IndexLive, LiveIntact;
    var h := r.hist[i];
    assert Placement(r, h);
    var loc, f := h.meta.loc, r.sys.store.files[h.meta.loc.poolIdx];
    var read, payload := f[loc.offset + RECORD_HEADER..End(h)], Payload(h);
    hide Inv, History, Placement, Ids;
    forall k: nat | Inside(h, k) && k >= loc.offset + RECORD_HEADER
      ensures read[k - loc.offset - RECORD_HEADER] == NowAt(r, h, r.turns[loc.poolIdx], k)
      ensures payload[k - loc.offset - RECORD_HEADER] == h.raw[k - loc.offset]
    {
      assert TracedAt(r, i, k);
    }
    if Unharmed(r, i) {
      forall m | 0 <= m < |read| ensures read[m] == payload[m] {
        var k: nat := loc.offset + RECORD_HEADER + m;
        assert Inside(h, k);
      }
      assert read == payload;
    }
  }

  /** Over every run of a restarted system. */
  lemma StaleReadOverRuns(s: Store, now: Instant, ops: seq<Op>, i: nat)
    requires Valid(s) && UsedAsScanned(s, now) && i < |RunAll(Start(s, now), ops).hist|
    ensures var r := RunAll(Start(s, now), ops);
            var h := r.hist[i];
            && h.meta.loc.poolIdx < |r.turns| && |h.raw| >= RECORD_HEADER && Addressable(r.sys.store, h.meta.loc)
            && (ReadSegment(r.sys.store, h.meta.loc) == Some(Payload(h)) <==> Unharmed(r, i))
  {
    hide Inv, Ids, UsedIsLog, Start, RunAll, UsedAsScanned, BytesTraced, Unharmed, ReadSegment, Layered;
    StartTraced(s, now);
    RunAllTraced(Start(s, now), ops);
    StaleReadIff(RunAll(Start(s, now), ops), i);
  }

  /** After one rotation: the payload survives exactly when the write tail has not got past the record's header
      or the bytes of the current pass that lie over the payload are the same, and failed writes of that pass
      have not put other bytes behind the tail. */
  lemma UnharmedOnce(r: Run, i: nat)
    requires Inv(r) && Ids(r) && UsedIsLog(r) && i < |r.hist| && r.hist[i].meta.loc.poolIdx < |r.turns|
    requires r.turns[r.hist[i].meta.loc.poolIdx] == r.hist[i].turn + 1
    ensures var h := r.hist[i];
            var j, lo := h.meta.loc.poolIdx, h.meta.loc.offset + RECORD_HEADER;
            var log, tail := Concat(PassLog(r.hist, j, r.turns[j])), Tail(r, j);
            var hi := if tail < End(h) then tail else End(h);
            && tail == POOL_HEADER + |log| && RECORD_HEADER <= |h.raw| == h.meta.loc.size
            && POOL_HEADER <= h.meta.loc.offset
            && (Unharmed(r, i) <==>
                && (tail <= lo
                    || log[lo - POOL_HEADER..hi - POOL_HEADER] == h.raw[RECORD_HEADER..hi - h.meta.loc.offset])
                && LeftAlone(r, i, tail))
  {
    hide PoolIdAfter, KeyLe, PassLog, Concat, IndexLive, LiveIntact, LastRemnant;
    var h := r.hist[i];
    assert Placement(r, h);
    var j, lo := h.meta.loc.poolIdx, h.meta.loc.offset + RECORD_HEADER;
    var log, tail := Concat(PassLog(r.hist, j, r.turns[j])), Tail(r, j);
    assert r.sys.store.files[j][POOL_HEADER..tail] == log;
    var hi := if tail < End(h) then tail else End(h);
    hide Inv, History, Placement, Ids, UsedIsLog;
    forall k: nat | Inside(h, k)
      ensures NowAt(r, h, r.turns[j], k)
              == if k < tail then log[k - POOL_HEADER] else RemnantOr(r, j, k, h.raw[k - h.meta.loc.offset])
    {
      NothingSince(r.hist, r.remnants, j, h.turn, k);
    }
    hide Overwritten, NowAt;
    if tail > lo {
      var over, under := log[lo - POOL_HEADER..hi - POOL_HEADER], h.raw[RECORD_HEADER..hi - h.meta.loc.offset];
      if Unharmed(r, i) {
        forall m | 0 <= m < |over| ensures over[m] == under[m] {
          var k: nat := lo + m;
          assert Inside(h, k);
        }
        assert over == under;
      }
      if over == under {
        forall k: nat | Inside(h, k) && lo <= k < tail ensures log[k - POOL_HEADER] == h.raw[k - h.meta.loc.offset] {
          assert over[k - lo] == under[k - lo];
        }
      }
    }
  }

  function RemnantOr(r: Run, j: nat, k: nat, b: byte): byte
    requires j < |r.turns|
  {
    match LastRemnant(r.remnants, j, r.turns[j], k)
    case None => b
    case Some(x) => x
  }

  /** From `tail` on, failed writes of the current pass have not changed the payload of record `i`. */
  ghost predicate LeftAlone(r: Run, i: nat, tail: nat)
    requires i < |r.hist| && r.hist[i].meta.loc.poolIdx < |r.turns|
  {
    var h := r.hist[i];
    forall k: nat :: Inside(h, k) && k >= h.meta.loc.offset + RECORD_HEADER && k >= tail ==>
      RemnantOr(r, h.meta.loc.poolIdx, k, h.raw[k - h.meta.loc.offset]) == h.raw[k - h.meta.loc.offset]
  }

  /** In particular an untorn file leaves it alone. */
  lemma UntornLeavesAlone(r: Run, i: nat)
    requires i < |r.hist| && r.hist[i].meta.loc.poolIdx < |r.turns| == |r.sys.store.slots|
    requires !Torn(r, r.hist[i].meta.loc.poolIdx)
    ensures LeftAlone(r, i, Tail(r, r.hist[i].meta.loc.poolIdx))
  {
    hide LastRemnant;
    var j := r.hist[i].meta.loc.poolIdx;
    forall k: nat | k >= Tail(r, j) ensures LastRemnant(r.remnants, j, r.turns[j], k) == None {
      NoRemnant(r.remnants, j, r.turns[j], k);
    }
  }
}
