/** The writer loop and the exporter's read loop over the real objects, and what the storage invariant means
    for a reader. */
module GlobalWriter {
  import opened Bytes
  import opened RecordFormat
  import opened PoolModel
  import opened IndexModel
  import opened Sorting
  import opened ChunkPoolClass
  import opened SegmentIndexClass
  import opened WriterModel
  import opened Recovery

  /** Every index entry is where its file's current pass put it, inside the used part; reading it gives exactly
      the payload that was accepted under its id; and no two entries share a byte. */
  ghost predicate IndexReadable(r: Run)
    requires Valid(r.sys.store)
  {
    var s, entries := r.sys.store, r.sys.index.entries;
    && (forall m :: m in entries ==>
          && m.loc.poolIdx < |s.slots| && m.id < |r.hist| && |r.hist[m.id].raw| >= RECORD_HEADER
          && m.loc.poolId == s.slots[m.loc.poolIdx].poolId
          && POOL_HEADER <= m.loc.offset
          && m.loc.offset + m.loc.size <= POOL_HEADER + s.slots[m.loc.poolIdx].used <= POOL_HEADER + s.capacity
          && Addressable(s, m.loc) && ReadSegment(s, m.loc) == Some(Payload(r.hist[m.id])))
    && (forall a, b :: a in entries && b in entries && a != b && a.loc.poolIdx == b.loc.poolIdx ==>
          a.loc.offset + a.loc.size <= b.loc.offset || b.loc.offset + b.loc.size <= a.loc.offset)
  }

  lemma InvReadable(r: Run)
    requires Inv(r)
    ensures Valid(r.sys.store) && IndexReadable(r)
  {
    InvIds(r);
    forall m | m in r.sys.index.entries ensures |r.hist| > m.id && r.hist[m.id].meta == m && Live(r, r.hist[m.id]) {
      EntryReadable(r, m);
    }
    forall m | m in r.sys.index.entries
      ensures var s := r.sys.store;
            && m.loc.poolIdx < |s.slots| && m.id < |r.hist| && |r.hist[m.id].raw| >= RECORD_HEADER
            && m.loc.poolId == s.slots[m.loc.poolIdx].poolId
            && POOL_HEADER <= m.loc.offset
            && m.loc.offset + m.loc.size <= POOL_HEADER + s.slots[m.loc.poolIdx].used <= POOL_HEADER + s.capacity
            && Addressable(s, m.loc) && ReadSegment(s, m.loc) == Some(Payload(r.hist[m.id]))
    {
      EntryReadable(r, m);
    }
    assert History(r);
    hide Inv, Ids, ReadSegment, Placement;
    forall a, b | a in r.sys.index.entries && b in r.sys.index.entries && a != b && a.loc.poolIdx == b.loc.poolIdx
      ensures a.loc.offset + a.loc.size <= b.loc.offset || b.loc.offset + b.loc.size <= a.loc.offset
    {
      assert SamePass(r.hist[a.id], r.hist[b.id]);
      assert SamePass(r.hist[b.id], r.hist[a.id]);
    }
  }

  /** The storage invariant: after a restart from any scanned store and any run of the writer — oversized
      requests, failed header and record writes and rotations included — every index entry is readable. */
  lemma StorageInvariant(s: Store, now: Instant, ops: seq<Op>)
    requires Valid(s) && UsedAsScanned(s, now)
    ensures Inv(RunAll(Start(s, now), ops)) && IndexReadable(RunAll(Start(s, now), ops))
  {
    StartInv(s, now);
    hide Start, Inv, RunAll;
    RunAllInv(Start(s, now), ops);
    InvReadable(RunAll(Start(s, now), ops));
  }

  /** The writer task: rebuild the index from a scan, then serve requests until the channel closes. `later(i, k)`
      is what the reader counters become during sleep `k` of request `i`. */
  method WriterLoop(pool: ChunkPool, index: SegmentIndex, now: Instant, ops: seq<Op>, later: (nat, nat) -> seq<nat>)
    requires pool.Valid() && forall i: nat, k: nat :: |later(i, k)| == |pool.slots|
    modifies pool, index, pool.readCounters.counters
    ensures pool.Valid()
    ensures Sys(pool.State(), index.State()) == RunAll(Start(old(pool.State()), now), ops).sys
  {
    hide Start, RunStep, Append, ScanAll, Valid, KeyLe;
    ghost var start := pool.State();
    var records := pool.ScanAllPools(now);
    index.RebuildFromScanned(records);
    StartSys(start, now);
    assert ops[..0] == [];
    for i := 0 to |ops|
      invariant pool.Valid() && |pool.slots| == |start.slots|
      invariant Sys(pool.State(), index.State()) == RunAll(Start(start, now), ops[..i]).sys
    {
      ghost var before := RunAll(Start(start, now), ops[..i]);
      assert ops[..i + 1][..i] == ops[..i];
      RunStepIsStep(before, ops[i]);
      ghost var sys := Sys(pool.State(), index.State());
      assert WriterModel.Step(sys, ops[i]) == RunAll(Start(start, now), ops[..i + 1]).sys;
      var n: nat := i;
      Serve(pool, index, ops[i], (k: nat) => later(n, k));
    }
    assert ops[..|ops|] == ops;
  }

  lemma StartSys(s: Store, now: Instant)
    requires Valid(s)
    ensures Start(s, now).sys == Sys(s, Rebuild(ScanAll(s, now)))
  {
  }

  /** One request: check, evict, append or rotate, insert. */
  method Serve(pool: ChunkPool, index: SegmentIndex, op: Op, later: nat -> seq<nat>)
    requires pool.Valid() && forall k: nat :: |later(k)| == |pool.slots|
    modifies pool, index, pool.readCounters.counters
    ensures pool.Valid() && |pool.slots| == old(|pool.slots|)
    ensures Sys(pool.State(), index.State()) == Step(Sys(old(pool.State()), old(index.State())), op)
  {
    hide Append, IndexModel.Insert, IndexModel.Evict;
    var q := op.req;
    var curIdx, used, cap := pool.Status();
    if used + RecordSize(q) > cap {
      var nextIdx := (curIdx + 1) % |pool.slots|;
      index.EvictPool(nextIdx);
    }
    var outcome := pool.Append(q, op.env, later);
    match outcome {
      case Placed(loc) =>
        var _ := index.Insert(q.camera, q.start, q.end, loc);
      case Refused(_) =>
    }
  }

  /** The parts are the accepted payloads of the segments, in their order. */
  ghost predicate Exported(r: Run, segs: seq<Meta>, parts: seq<seq<byte>>) {
    && |parts| == |segs|
    && forall k :: 0 <= k < |segs| ==>
         segs[k].id < |r.hist| && |r.hist[segs[k].id].raw| >= RECORD_HEADER && parts[k] == Payload(r.hist[segs[k].id])
  }

  /** Since `before`, each segment has been read once, in order, while the counters were `counters`. */
  ghost predicate ReadInOrder(before: seq<Read>, now: seq<Read>, segs: seq<Meta>, counters: seq<nat>) {
    && |now| == |before| + |segs| && now[..|before|] == before
    && forall k :: 0 <= k < |segs| ==> now[|before| + k] == Read(segs[k].loc, counters)
  }

  lemma AllExported(r: Run, segs: seq<Meta>, parts: seq<seq<byte>>)
    requires |parts| == |segs|
    requires forall k :: 0 <= k < |segs| ==> segs[k].id < |r.hist| && |r.hist[segs[k].id].raw| >= RECORD_HEADER
    requires forall k :: 0 <= k < |segs| ==> parts[k] == Payload(r.hist[segs[k].id])
    ensures Exported(r, segs, parts)
  {
  }

  lemma SameLookup(ix: Index, camera: seq<byte>, from: Instant, to: Instant)
    ensures Filter(ix.entries, (m: Meta) => m.camera == camera && m.start < to && m.end > from)
            == InRange(ix, camera, from, to)
  {
  }

  lemma NothingRead(log: seq<Read>, counters: seq<nat>)
    ensures ReadInOrder(log, log, [], counters)
  {
  }

  lemma ReadOneMore(before: seq<Read>, now: seq<Read>, segs: seq<Meta>, i: nat, counters: seq<nat>)
    requires i < |segs| && ReadInOrder(before, now, segs[..i], counters)
    ensures ReadInOrder(before, now + [Read(segs[i].loc, counters)], segs[..i + 1], counters)
  {
  }

  lemma RangeInOrder(r: Run, camera: seq<byte>, from: Instant, to: Instant)
    requires Inv(r)
    ensures Chronological(InRange(r.sys.index, camera, from, to))
  {
    assert IndexLive(r);
    hide Inv, KeyLe;
    InRangeListsRange(r.sys.index, camera, from, to);
  }

  /** The exporter's lookup and read loop: the payloads, in time order, of exactly the overlapping segments. */
  method ExportRange(pool: ChunkPool, index: SegmentIndex, ghost r: Run,
                     camera: seq<byte>, from: Instant, to: Instant) returns (parts: Option<seq<seq<byte>>>)
    requires Inv(r) && r.sys == Sys(pool.State(), index.State())
    modifies pool`readLog
    ensures var segs := InRange(index.State(), camera, from, to);
            && ListsRange(index.entries, camera, from, to, segs) && Chronological(segs)
            && (parts.None? <==> segs == [])
            && (parts.Some? ==> Exported(r, segs, parts.value))
            && ReadInOrder(old(pool.readLog), pool.readLog, segs, pool.readCounters.counters[..])
  {
    hide Inv, KeyLe, ListsRange, Chronological, Exported, ReadInOrder, Payload, InRange;
    InRangeListsRange(index.State(), camera, from, to);
    RangeInOrder(r, camera, from, to);
    var segs := Filter(index.entries, (m: Meta) => m.camera == camera && m.start < to && m.end > from);
    assert segs == InRange(index.State(), camera, from, to) by {
      SameLookup(index.State(), camera, from, to);
    }
    NothingRead(pool.readLog, pool.readCounters.counters[..]);
    if segs == [] {
      return None;
    }
    forall k | 0 <= k < |segs|
      ensures segs[k].id < |r.hist| && |r.hist[segs[k].id].raw| >= RECORD_HEADER
      ensures Addressable(r.sys.store, segs[k].loc)
      ensures ReadSegment(r.sys.store, segs[k].loc) == Some(Payload(r.hist[segs[k].id]))
    {
      assert segs[k] in segs;
      EntryReadable(r, segs[k]);
    }
    var out := [];
    for i := 0 to |segs|
      invariant |out| == i
      invariant pool.State() == old(pool.State())
      invariant forall k :: 0 <= k < i ==> out[k] == Payload(r.hist[segs[k].id])
      invariant ReadInOrder(old(pool.readLog), pool.readLog, segs[..i], pool.readCounters.counters[..])
    {
      ReadOneMore(old(pool.readLog), pool.readLog, segs, i, pool.readCounters.counters[..]);
      var data := pool.ReadSegmentData(segs[i].loc);
      out := out + [data.value];
    }
    assert segs[..|segs|] == segs;
    parts := Some(out);
    assert Exported(r, segs, out) by {
      AllExported(r, segs, out);
    }
  }
}
