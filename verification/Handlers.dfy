/** The request handlers on the real objects: which guards they take, in which order, and that they give every one
    of them back. */
module Handlers {
  import opened Bytes
  import opened RecordFormat
  import opened PoolModel
  import opened IndexModel
  import opened Sorting
  import opened ChunkPoolClass
  import opened SegmentIndexClass
  import opened WriterModel
  import opened GlobalWriter

  /** The counters with one more guard on each of the files `held`. */
  predicate Guarded(now: seq<nat>, before: seq<nat>, held: seq<nat>) {
    |now| == |before| && forall j :: 0 <= j < |now| ==> now[j] == before[j] + (if j in held then 1 else 0)
  }

  predicate Distinct(s: seq<nat>) {
    forall i, k :: 0 <= i < k < |s| ==> s[i] != s[k]
  }

  /** The counters with one more guard on each file a segment lies in. */
  ghost predicate GuardsOn(now: seq<nat>, before: seq<nat>, segs: seq<Meta>) {
    && |now| == |before|
    && forall j :: 0 <= j < |now| ==>
         now[j] == before[j] + (if exists m :: m in segs && m.loc.poolIdx == j then 1 else 0)
  }

  /** The files the entries lie in, each once. */
  method FilesToGuard(segs: seq<Meta>) returns (files: seq<nat>)
    ensures Distinct(files) && forall j :: j in files <==> exists m :: m in segs && m.loc.poolIdx == j
  {
    files := [];
    for i := 0 to |segs|
      invariant Distinct(files)
      invariant forall j :: j in files <==> exists m :: m in segs[..i] && m.loc.poolIdx == j
    {
      assert segs[..i + 1] == segs[..i] + [segs[i]];
      if segs[i].loc.poolIdx !in files {
        files := files + [segs[i].loc.poolIdx];
      }
    }
    assert segs[..|segs|] == segs;
  }

  method AcquireAll(counters: PoolReadCounters, files: seq<nat>)
    requires Distinct(files) && forall j :: j in files ==> j < counters.counters.Length
    modifies counters.counters
    ensures Guarded(counters.counters[..], old(counters.counters[..]), files)
  {
    ghost var before := counters.counters[..];
    for i := 0 to |files|
      invariant Guarded(counters.counters[..], before, files[..i])
    {
      assert files[i] in files && files[i] !in files[..i];
      assert files[..i + 1] == files[..i] + [files[i]];
      counters.Acquire(files[i]);
    }
    assert files[..|files|] == files;
  }

  method ReleaseAll(counters: PoolReadCounters, files: seq<nat>, ghost before: seq<nat>)
    requires Distinct(files) && forall j :: j in files ==> j < counters.counters.Length
    requires Guarded(counters.counters[..], before, files)
    modifies counters.counters
    ensures counters.counters[..] == before
  {
    for i := 0 to |files|
      invariant Guarded(counters.counters[..], before, files[i..])
    {
      assert files[i..] == [files[i]] + files[i + 1..];
      assert files[i] in files && files[i] !in files[i + 1..];
      assert counters.counters[..][files[i]] > 0;
      counters.Release(files[i]);
    }
    assert files[|files|..] == [];
  }

  /** An export: guards on every file its range touches, the read loop, and every guard given back. What it
      returns is what was accepted for the overlapping segments, and each of them was read while exactly their
      files had one guard more than before. */
  method HandleExport(pool: ChunkPool, index: SegmentIndex, ghost r: Run,
                      camera: seq<byte>, from: Instant, to: Instant) returns (parts: Option<seq<seq<byte>>>)
    requires Inv(r) && r.sys == Sys(pool.State(), index.State()) && pool.Valid()
    modifies pool.readCounters.counters, pool`readLog
    ensures pool.readCounters.counters[..] == old(pool.readCounters.counters[..])
    ensures var segs := InRange(index.State(), camera, from, to);
            && ListsRange(index.entries, camera, from, to, segs) && Chronological(segs)
            && (parts.None? <==> segs == [])
            && (parts.Some? ==> Exported(r, segs, parts.value))
            && exists guarded :: GuardsOn(guarded, old(pool.readCounters.counters[..]), segs)
                                 && ReadInOrder(old(pool.readLog), pool.readLog, segs, guarded)
  {
    hide Inv, KeyLe, ReadSegment, ListsRange, Chronological, Exported, ReadInOrder;
    var segs := Filter(index.entries, (m: Meta) => m.camera == camera && m.start < to && m.end > from);
    var files := FilesToGuard(segs);
    forall j | j in files ensures j < pool.readCounters.counters.Length {
      var m :| m in segs && m.loc.poolIdx == j;
      EntryReadable(r, m);
    }
    ghost var before := pool.readCounters.counters[..];
    AcquireAll(pool.readCounters, files);
    ghost var guarded := pool.readCounters.counters[..];
    assert GuardsOn(guarded, before, segs);
    parts := ExportRange(pool, index, r, camera, from, to);
    ReleaseAll(pool.readCounters, files, before);
  }

  /** A segment request that is not overtaken by the writer: not found exactly when the camera has no entry with
      that id, else the payload accepted under it; its guard is given back. */
  method HandleHlsSegment(pool: ChunkPool, index: SegmentIndex, ghost r: Run, camera: seq<byte>, segId: nat)
    returns (found: bool, data: Option<seq<byte>>)
    requires Inv(r) && r.sys == Sys(pool.State(), index.State()) && pool.Valid()
    modifies pool.readCounters.counters, pool`readLog
    ensures pool.readCounters.counters[..] == old(pool.readCounters.counters[..])
    ensures !found ==> pool.readLog == old(pool.readLog)
    ensures found ==> segId < |r.hist| && exists guarded ::
              && GuardsOn(guarded, old(pool.readCounters.counters[..]), [r.hist[segId].meta])
              && pool.readLog == old(pool.readLog) + [Read(r.hist[segId].meta.loc, guarded)]
    ensures found <==> exists m :: m in index.entries && m.camera == camera && m.id == segId
    ensures found ==> segId < |r.hist| && |r.hist[segId].raw| >= RECORD_HEADER && data == Some(Payload(r.hist[segId]))
    ensures !found ==> data == None
  {
    hide Inv, KeyLe, ReadSegment;
    var segs := Filter(index.entries, (m: Meta) => m.camera == camera);
    for i := 0 to |segs|
      invariant forall k :: 0 <= k < i ==> segs[k].id != segId
      invariant pool.readLog == old(pool.readLog)
      invariant pool.readCounters.counters[..] == old(pool.readCounters.counters[..])
    {
      if segs[i].id == segId {
        var m := segs[i];
        assert m in segs;
        EntryReadable(r, m);
        pool.readCounters.Acquire(m.loc.poolIdx);
        ghost var guarded := pool.readCounters.counters[..];
        assert GuardsOn(guarded, old(pool.readCounters.counters[..]), [m]);
        data := pool.ReadSegmentData(m.loc);
        pool.readCounters.Release(m.loc.poolIdx);
        assert pool.readCounters.counters[..] == old(pool.readCounters.counters[..]);
        return true, data;
      }
    }
    found, data := false, None;
  }
}
