/** Restart: what scanning the files gives back, and why the rebuilt system satisfies the storage invariant
    whatever the files contain. */
module Recovery {
  import opened Bytes
  import opened RecordFormat
  import opened PoolScan
  import opened PoolModel
  import opened IndexModel
  import opened Sorting
  import opened ChunkPoolClass
  import opened WriterModel

  function FileScan(s: Store, j: nat, now: Instant): seq<Scanned>
    requires j < |s.slots| == |s.files|
  {
    ScanFrom(s.files[j], Origin(j, s.slots[j].poolId, now), POOL_HEADER)
  }

  /** `bytes_used` as `open` computes it. */
  ghost predicate UsedAsScanned(s: Store, now: Instant)
    requires |s.slots| == |s.files|
  {
    forall j {:trigger s.slots[j]} :: 0 <= j < |s.slots| ==> s.slots[j].used == TotalSize(FileScan(s, j, now))
  }

  function RawAt(s: Store, r: Scanned): seq<byte> {
    if r.poolIdx < |s.files| && r.offset + r.size <= |s.files[r.poolIdx]|
    then s.files[r.poolIdx][r.offset..r.offset + r.size] else []
  }

  function HistoryOf(s: Store, records: seq<Scanned>): (h: seq<Accepted>)
    ensures |h| == |records|
  {
    seq(|records|, i requires 0 <= i < |records| => Accepted(ScannedMeta(records, i), RawAt(s, records[i]), 0, 0))
  }

  /** The system as the writer loop starts it: index rebuilt from a full scan, history starting over. */
  function Start(s: Store, now: Instant): (r: Run)
    requires Valid(s)
    ensures Valid(r.sys.store) && Sized(r) && |r.turns| == |s.slots|
  {
    Run(Sys(s, Rebuild(ScanAll(s, now))), HistoryOf(s, ScanAll(s, now)),
        seq(|s.slots|, _ => 0), seq(|s.slots|, j requires 0 <= j < |s.slots| => s.slots[j].poolId), 0, s.files, [])
  }

  // ---- what a full scan contains ----

  predicate Apart(a: Scanned, b: Scanned) {
    a.poolIdx == b.poolIdx ==> a.offset + a.size <= b.offset || b.offset + b.size <= a.offset
  }

  lemma {:induction false} FileRecords(s: Store, j: nat, now: Instant)
    requires Valid(s) && j < |s.slots|
    ensures forall i :: 0 <= i < |FileScan(s, j, now)| ==>
              var r := FileScan(s, j, now)[i];
              r.poolIdx == j && r.poolId == s.slots[j].poolId && POOL_HEADER <= r.offset && RECORD_HEADER <= r.size
              && r.offset + r.size <= POOL_HEADER + TotalSize(FileScan(s, j, now)) <= |s.files[j]|
    ensures AllPairs(FileScan(s, j, now), Apart) && Sorted(FileScan(s, j, now), ScanLe)
  {
    hide ScanFrom, Fits;
    var o := Origin(j, s.slots[j].poolId, now);
    var scan := FileScan(s, j, now);
    ScanTiles(s.files[j], o, POOL_HEADER);
    forall i, k | 0 <= i <= k < |scan|
      ensures scan[i].poolIdx == j && scan[i].poolId == s.slots[j].poolId
      ensures POOL_HEADER <= scan[i].offset && RECORD_HEADER <= scan[i].size
      ensures scan[k].offset + scan[k].size <= POOL_HEADER + TotalSize(scan)
      ensures i < k ==> scan[i].offset + scan[i].size <= scan[k].offset
    {
      TilesAt(scan, POOL_HEADER, POOL_HEADER + TotalSize(scan), i, k);
      ScannedAreSelfDescribing(s.files[j], o, POOL_HEADER, i);
      ScannedAreSelfDescribing(s.files[j], o, POOL_HEADER, k);
    }
  }

  lemma {:induction false} ScanFilesRecords(s: Store, k: nat, now: Instant)
    requires Valid(s) && k <= |s.slots|
    ensures forall r :: r in ScanFiles(s, k, now) ==> r.poolIdx < k && r in FileScan(s, r.poolIdx, now)
    ensures AllPairs(ScanFiles(s, k, now), Apart)
  {
    hide ScanFrom, TotalSize;
    if k == 0 {
    } else {
      ScanFilesRecords(s, k - 1, now);
      FileRecords(s, k - 1, now);
      var before, last := ScanFiles(s, k - 1, now), FileScan(s, k - 1, now);
      assert ScanFiles(s, k, now) == before + last;
      forall r | r in ScanFiles(s, k, now) ensures r.poolIdx < k && r in FileScan(s, r.poolIdx, now) {
        if r !in before {
          var i :| 0 <= i < |last| && last[i] == r;
        }
      }
      forall i, m | 0 <= i < m < |before + last| ensures Apart((before + last)[i], (before + last)[m]) {
        if i < |before| <= m {
          assert before[i] in before;
        }
      }
    }
  }

  function InFile(j: nat): Scanned -> bool {
    (r: Scanned) => r.poolIdx == j
  }

  lemma SelectOneFile(s: Store, k: nat, j: nat, now: Instant)
    requires Valid(s) && k < |s.slots|
    ensures Filter(FileScan(s, k, now), InFile(j)) == if k == j then FileScan(s, j, now) else []
  {
    hide ScanFrom, TotalSize, Filter;
    FileRecords(s, k, now);
    var scan := FileScan(s, k, now);
    forall r | r in scan ensures InFile(j)(r) == (k == j) {
      var i :| 0 <= i < |scan| && scan[i] == r;
    }
    FilterAll(scan, InFile(j), k == j);
  }

  lemma ScanFilesSnoc(s: Store, k: nat, now: Instant)
    requires 0 < k <= |s.slots| == |s.files|
    ensures ScanFiles(s, k, now) == ScanFiles(s, k - 1, now) + FileScan(s, k - 1, now)
  {
    hide ScanFrom;
  }

  lemma SelectFileStep(s: Store, k: nat, j: nat, now: Instant)
    requires Valid(s) && k < |s.slots| && j < |s.slots|
    ensures Filter(ScanFiles(s, k + 1, now), InFile(j))
            == Filter(ScanFiles(s, k, now), InFile(j)) + (if j == k then FileScan(s, j, now) else [])
  {
    ScanFilesSnoc(s, k + 1, now);
    hide FileScan, Filter, ScanFiles, InFile;
    FilterConcat(ScanFiles(s, k, now), FileScan(s, k, now), InFile(j));
    SelectOneFile(s, k, j, now);
  }

  lemma {:induction false} SelectFile(s: Store, k: nat, j: nat, now: Instant)
    requires Valid(s) && k <= |s.slots| && j < |s.slots|
    ensures Filter(ScanFiles(s, k, now), InFile(j)) == if j < k then FileScan(s, j, now) else []
  {
    hide *;
    if k == 0 {
      SelectNoFile(s, j, now);
    } else {
      SelectFile(s, k - 1, j, now);
      SelectFileStep(s, k - 1, j, now);
    }
  }

  lemma SelectNoFile(s: Store, j: nat, now: Instant)
    requires Valid(s)
    ensures Filter(ScanFiles(s, 0, now), InFile(j)) == []
  {
  }

  /** Every file's records appear in the full scan exactly once and in file order. */
  lemma FullScanByFile(s: Store, j: nat, now: Instant)
    requires Valid(s) && j < |s.slots|
    ensures Filter(ScanAll(s, now), InFile(j)) == FileScan(s, j, now)
  {
    hide ScanFrom;
    FilterOfSort(ScanFiles(s, |s.slots|, now), ScanLe, InFile(j));
    SelectFile(s, |s.slots|, j, now);
    FileRecords(s, j, now);
    SortOfSorted(FileScan(s, j, now), ScanLe);
  }

  lemma FullScanRecords(s: Store, now: Instant)
    requires Valid(s)
    ensures forall i :: 0 <= i < |ScanAll(s, now)| ==>
              var r := ScanAll(s, now)[i];
              r.poolIdx < |s.slots| && r.poolId == s.slots[r.poolIdx].poolId && POOL_HEADER <= r.offset
              && RECORD_HEADER <= r.size
              && r.offset + r.size <= POOL_HEADER + TotalSize(FileScan(s, r.poolIdx, now)) <= |s.files[r.poolIdx]|
    ensures forall i, k ::
              0 <= i < k < |ScanAll(s, now)| && ScanAll(s, now)[i].poolIdx == ScanAll(s, now)[k].poolIdx ==>
              ScanAll(s, now)[i].offset + ScanAll(s, now)[i].size <= ScanAll(s, now)[k].offset
  {
    hide ScanFrom, TotalSize;
    var files, all := ScanFiles(s, |s.slots|, now), ScanAll(s, now);
    ScanFilesRecords(s, |s.slots|, now);
    SortSorts(files, ScanLe);
    SortKeepsPairs(files, ScanLe, Apart);
    forall i | 0 <= i < |all|
      ensures var r := all[i];
              r.poolIdx < |s.slots| && r.poolId == s.slots[r.poolIdx].poolId && POOL_HEADER <= r.offset
              && RECORD_HEADER <= r.size
              && r.offset + r.size <= POOL_HEADER + TotalSize(FileScan(s, r.poolIdx, now)) <= |s.files[r.poolIdx]|
    {
      var r := all[i];
      SortMembers(files, ScanLe, r);
      FileRecords(s, r.poolIdx, now);
      var m :| 0 <= m < |FileScan(s, r.poolIdx, now)| && FileScan(s, r.poolIdx, now)[m] == r;
    }
  }

  predicate FileOrder(a: Scanned, b: Scanned) {
    a.poolIdx <= b.poolIdx
  }

  lemma {:induction false} FilesInOrder(s: Store, k: nat, now: Instant)
    requires Valid(s) && k <= |s.slots|
    ensures AllPairs(ScanFiles(s, k, now), FileOrder)
  {
    hide ScanFrom, TotalSize;
    if k == 0 {
    } else {
      FilesInOrder(s, k - 1, now);
      FileRecords(s, k - 1, now);
      ScanFilesRecords(s, k - 1, now);
      ScanFilesSnoc(s, k, now);
      var before, last := ScanFiles(s, k - 1, now), FileScan(s, k - 1, now);
      hide ScanFiles, FileScan;
      forall i, m | 0 <= i < m < |before + last| ensures FileOrder((before + last)[i], (before + last)[m]) {
        if i < |before| <= m {
          assert before[i] in before;
        }
      }
    }
  }

  /** The full scan is ordered by pool id, then by offset; records that agree in both, which can only be in files
      whose headers carry the same id, come in the order of their files. */
  lemma FullScanOrder(s: Store, now: Instant)
    requires Valid(s)
    ensures forall i, k :: 0 <= i < k < |ScanAll(s, now)| ==>
              var a, b := ScanAll(s, now)[i], ScanAll(s, now)[k];
              || a.poolId < b.poolId
              || (a.poolId == b.poolId
                  && (a.offset < b.offset || (a.offset == b.offset && a.poolIdx < b.poolIdx)))
  {
    FilesInOrder(s, |s.slots|, now);
    SortIsStable(ScanFiles(s, |s.slots|, now), ScanLe, FileOrder);
    FullScanRecords(s, now);
    hide ScanFiles, SortBy, FileScan, Valid, TotalSize;
  }

  // ---- any disk ----

  /** A system rebuilt by scanning satisfies the storage invariant. */
  lemma StartInv(s: Store, now: Instant)
    requires Valid(s) && UsedAsScanned(s, now)
    ensures Inv(Start(s, now))
  {
    hide ScanAll, ScanFrom, TotalSize, KeyLe, Rebuild;
    var r := Start(s, now);
    var all := ScanAll(s, now);
    FullScanRecords(s, now);
    RebuildEntries(all);
    assert Ids(r);
    forall i | 0 <= i < |r.hist| ensures r.hist[i].meta.id == i && Placement(r, r.hist[i]) && Intact(s, r.hist[i]) {
      assert all[i].poolIdx < |s.slots|;
    }
    assert History(r);
  }

  lemma OpenedUsedAsScanned(disk: Disk, capacity: nat, env: Env)
    requires 0 < |disk| < U64 && FullLength(disk, capacity) && Open(disk, capacity, env).Some?
    ensures Valid(Open(disk, capacity, env).value) && UsedAsScanned(Open(disk, capacity, env).value, env.now)
  {
    hide ReadPoolId;
    OpenValid(disk, capacity, env);
    var s := Open(disk, capacity, env).value;
    forall j | 0 <= j < |s.slots| ensures s.slots[j].used == TotalSize(FileScan(s, j, env.now)) {
      if disk[j].None? {
        NoMagicNoRecord(s.files[j], Origin(j, s.slots[j].poolId, env.now), POOL_HEADER);
      }
    }
  }

  ghost predicate Extends(r: Run, r': Run) {
    && r.hist <= r'.hist && r'.base == r.base && |r'.turns| == |r.turns|
    && r'.sys.store.capacity == r.sys.store.capacity && r.rotations <= r'.rotations
    && (forall j :: 0 <= j < |r.turns| ==> r.turns[j] <= r'.turns[j])
  }

  lemma StepExtends(r: Run, op: Op)
    requires Valid(r.sys.store) && Sized(r)
    ensures Extends(r, RunStep(r, op))
  {
    hide EncodeRecord, PoolHeader, Patch, Evict, Insert, Valid;
  }

  lemma {:induction false} RunExtends(r: Run, ops: seq<Op>)
    requires Valid(r.sys.store) && Sized(r)
    ensures Extends(r, RunAll(r, ops))
  {
    hide RunStep, Valid;
    if ops == [] {
    } else {
      RunExtends(r, ops[..|ops| - 1]);
      StepExtends(RunAll(r, ops[..|ops| - 1]), ops[|ops| - 1]);
    }
  }

  /** The bytes of an accepted record stay until its file is rotated into. */
  lemma BytesStay(r: Run, ops: seq<Op>, i: nat)
    requires Inv(r) && i < |r.hist| && Live(RunAll(r, ops), r.hist[i])
    ensures Inv(RunAll(r, ops)) && Intact(RunAll(r, ops).sys.store, r.hist[i])
  {
    hide RunAll, Intact, PoolIdAfter;
    RunAllInv(r, ops);
    RunExtends(r, ops);
    assert RunAll(r, ops).hist[i] == r.hist[i];
  }

  /** Restart from any disk contents: whatever bytes the (full-length) files hold, opening succeeds, the
      storage invariant holds at once and after every later run, recovered records are numbered 0..k-1, and
      the bytes of each stay as they were until its file is rotated into. */
  lemma RestartFromAnyDisk(disk: Disk, capacity: nat, env: Env, ops: seq<Op>)
    requires 0 < |disk| < U64 && FullLength(disk, capacity) && forall i :: 0 <= i < |disk| ==> disk[i].Some?
    ensures Open(disk, capacity, env).Some? && Valid(Open(disk, capacity, env).value)
    ensures var s := Open(disk, capacity, env).value;
            var records := ScanAll(s, env.now);
            var r := RunAll(Start(s, env.now), ops);
            && Inv(Start(s, env.now)) && Inv(r)
            && (forall i :: 0 <= i < |records| ==> Recovered(disk, records, i, r))
  {
    hide ScanAll, ReadPoolId, KeyLe, RunAll, Latest, Inv, ScanFrom, TotalSize;
    assert Latest(disk, |disk|).Some? by {
      assert disk[0].Some?;
    }
    OpenedUsedAsScanned(disk, capacity, env);
    var s := Open(disk, capacity, env).value;
    var r0 := Start(s, env.now);
    StartInv(s, env.now);
    RunAllInv(r0, ops);
    RunExtends(r0, ops);
    FullScanRecords(s, env.now);
    var r := RunAll(r0, ops);
    forall i | 0 <= i < |ScanAll(s, env.now)|
      ensures Recovered(disk, ScanAll(s, env.now), i, r)
    {
      assert ScanAll(s, env.now)[i].poolIdx < |s.slots|;
      if Live(r, r0.hist[i]) {
        BytesStay(r0, ops, i);
      }
    }
  }

  /** Recovered record `i` has id `i` in the history of `r`, and its bytes on disk are still the ones it was
      recovered from unless its file has been rotated into since. */
  ghost predicate Recovered(disk: Disk, records: seq<Scanned>, i: nat, r: Run)
    requires i < |records|
  {
    var rec := records[i];
    && i < |r.hist| && r.hist[i].meta == ScannedMeta(records, i)
    && rec.poolIdx < |disk| == |r.turns| == |r.sys.store.files| && disk[rec.poolIdx].Some?
    && rec.offset + rec.size <= |disk[rec.poolIdx].value|
    && (r.turns[rec.poolIdx] == 0 ==>
          && rec.offset + rec.size <= |r.sys.store.files[rec.poolIdx]|
          && r.sys.store.files[rec.poolIdx][rec.offset..rec.offset + rec.size]
             == disk[rec.poolIdx].value[rec.offset..rec.offset + rec.size])
  }

  // ---- the scan of a file in use ----

  /** The records written to file `j` since its rotation number `turn`, oldest first. */
  function PassLog(hist: seq<Accepted>, j: nat, turn: nat): seq<seq<byte>> {
    if hist == [] then []
    else
      var h := hist[|hist| - 1];
      PassLog(hist[..|hist| - 1], j, turn) + (if h.meta.loc.poolIdx == j && h.turn == turn then [h.raw] else [])
  }

  /** The used part of every file is exactly the records of its current pass, one after the other. */
  ghost predicate UsedIsLog(r: Run)
    requires Ids(r)
  {
    forall j {:trigger r.sys.store.files[j]} :: 0 <= j < |r.turns| ==>
      r.sys.store.files[j][POOL_HEADER..POOL_HEADER + r.sys.store.slots[j].used]
      == Concat(PassLog(r.hist, j, r.turns[j]))
  }

  lemma {:induction false} PassLogEmpty(hist: seq<Accepted>, j: nat, turn: nat)
    requires forall i :: 0 <= i < |hist| ==> hist[i].meta.loc.poolIdx != j || hist[i].turn != turn
    ensures PassLog(hist, j, turn) == []
  {
    if hist == [] {
    } else {
      PassLogEmpty(hist[..|hist| - 1], j, turn);
    }
  }

  lemma RotatedLog(r: Run, now: Instant, io: Io)
    requires Inv(r) && UsedIsLog(r) && Ids(Rotated(r, now, io))
    ensures UsedIsLog(Rotated(r, now, io))
  {
    hide PoolIdAfter, PoolHeader, IndexLive, LiveIntact, PassLog, Concat;
    var j := NextIdx(r.sys.store);
    forall i | 0 <= i < |r.hist| ensures r.hist[i].meta.loc.poolIdx != j || r.hist[i].turn != r.turns[j] + 1 {
      assert Placement(r, r.hist[i]);
    }
    PassLogEmpty(r.hist, j, r.turns[j] + 1);
    assert Concat([]) == [] by {
      NoRecordsNoBytes();
    }
    hide History, Placement;
  }

  lemma NoRecordsNoBytes()
    ensures Concat([]) == []
  {
  }

  lemma RecordedFileLog(r: Run, q: Request)
    requires Inv(r) && Valid(r.sys.store) && Sized(r) && !Full(r.sys.store, RecordSize(q))
    ensures var r', w := Recorded(r, q, Done), r.sys.store.writeIdx;
            && PassLog(r'.hist, w, r.turns[w]) == PassLog(r.hist, w, r.turns[w]) + [EncodeRecord(q)]
            && forall j :: 0 <= j < |r.turns| && j != w ==>
                 PassLog(r'.hist, j, r.turns[j]) == PassLog(r.hist, j, r.turns[j])
  {
    hide EncodeRecord, Insert, Inv, Patch;
    var r', w := Recorded(r, q, Done), r.sys.store.writeIdx;
    assert r'.hist[..|r'.hist| - 1] == r.hist;
    forall j | 0 <= j < |r.turns| && j != w ensures PassLog(r'.hist, j, r.turns[j]) == PassLog(r.hist, j, r.turns[j]) {
      assert PassLog(r.hist, j, r.turns[j]) + [] == PassLog(r.hist, j, r.turns[j]);
    }
  }

  lemma RecordedBytes(s: Store, q: Request, io: Io)
    requires Valid(s) && !Full(s, RecordSize(q))
    ensures var (s', _), w := WriteRecord(s, q, io), s.writeIdx;
            var used, used' := s.slots[w].used, s'.slots[w].used;
            && Valid(s') && |s'.slots| == |s.slots|
            && s'.files[w][POOL_HEADER..POOL_HEADER + used']
               == s.files[w][POOL_HEADER..POOL_HEADER + used] + (if io.Done? then EncodeRecord(q) else [])
            && forall j :: 0 <= j < |s.slots| && j != w ==> s'.files[j] == s.files[j] && s'.slots[j] == s.slots[j]
  {
    var w := s.writeIdx;
    hide EncodeRecord;
    PrefixGrows(s.files[w], POOL_HEADER, POOL_HEADER + s.slots[w].used, Written(EncodeRecord(q), io));
    hide Patch;
  }

  lemma PrefixGrows(file: seq<byte>, lo: nat, at: nat, data: seq<byte>)
    requires lo <= at && at + |data| <= |file|
    ensures Patch(file, at, data)[lo..at] == file[lo..at]
    ensures Patch(file, at, data)[lo..at + |data|] == file[lo..at] + data
  {
    PatchRange(file, at, data, lo, at);
    var f := Patch(file, at, data);
    hide Patch;
    assert f[lo..at + |data|] == f[lo..at] + f[at..at + |data|];
  }

  /** UsedIsLog for one file. */
  ghost predicate FileIsLog(r: Run, j: nat)
    requires Ids(r) && j < |r.turns|
  {
    r.sys.store.files[j][POOL_HEADER..POOL_HEADER + r.sys.store.slots[j].used] == Concat(PassLog(r.hist, j, r.turns[j]))
  }

  lemma RecordedFileIsLog(r: Run, q: Request, io: Io, j: nat)
    requires Inv(r) && Ids(r) && j < |r.turns| && FileIsLog(r, j)
    requires !Full(r.sys.store, RecordSize(q)) && Ids(Recorded(r, q, io))
    ensures FileIsLog(Recorded(r, q, io), j)
  {
    hide Inv, WriteRecord, EncodeRecord, PassLog, Concat, PoolIdAfter;
    RecordedBytes(r.sys.store, q, io);
    RecordedShape(r, q, io);
    var w := r.sys.store.writeIdx;
    if io.Done? {
      RecordedFileLog(r, q);
      ConcatSnoc(PassLog(r.hist, w, r.turns[w]), EncodeRecord(q));
    }
    hide Recorded, Full;
  }

  lemma RecordedLog(r: Run, q: Request, io: Io)
    requires Inv(r) && UsedIsLog(r) && !Full(r.sys.store, RecordSize(q)) && Ids(Recorded(r, q, io))
    ensures UsedIsLog(Recorded(r, q, io))
  {
    hide Inv, WriteRecord, Concat, PassLog, PoolIdAfter;
    InvIds(r);
    RecordedShape(r, q, io);
    var r' := Recorded(r, q, io);
    hide Recorded;
    forall j | 0 <= j < |r'.turns|
      ensures r'.sys.store.files[j][POOL_HEADER..POOL_HEADER + r'.sys.store.slots[j].used]
              == Concat(PassLog(r'.hist, j, r'.turns[j]))
    {
      assert r.sys.store.files[j] == r.sys.store.files[j];
      RecordedFileIsLog(r, q, io, j);
    }
  }

  lemma RecordedShape(r: Run, q: Request, io: Io)
    requires Valid(r.sys.store) && Sized(r) && !Full(r.sys.store, RecordSize(q))
    ensures var r' := Recorded(r, q, io);
            r'.sys.store == WriteRecord(r.sys.store, q, io).0 && r'.turns == r.turns
            && (io.Failed? ==> r'.hist == r.hist)
  {
    hide EncodeRecord, Insert, Patch;
  }

  lemma RunStepLog(r: Run, op: Op)
    requires Inv(r) && UsedIsLog(r)
    ensures Inv(RunStep(r, op)) && UsedIsLog(RunStep(r, op))
  {
    hide PoolIdAfter, KeyLe, LiveIntact, IndexLive, History, EncodeRecord;
    RunStepInv(r, op);
    var q := op.req;
    var full := Full(r.sys.store, RecordSize(q));
    var r1 := if full then Evicted(r) else r;
    if full {
      EvictedInv(r);
    }
    if RecordSize(q) <= r.sys.store.capacity {
      if full {
        RotatedInv(r1, op.env.now, op.env.header);
        RotatedLog(r1, op.env.now, op.env.header);
        if op.env.header.Done? {
          var r2 := Rotated(r1, op.env.now, op.env.header);
          RecordedInv(r2, q, op.env.record);
          RecordedLog(r2, q, op.env.record);
        }
      } else {
        RecordedInv(r, q, op.env.record);
        RecordedLog(r, q, op.env.record);
      }
    }
  }

  lemma {:induction false} RunAllLog(r: Run, ops: seq<Op>)
    requires Inv(r) && UsedIsLog(r)
    ensures Inv(RunAll(r, ops)) && UsedIsLog(RunAll(r, ops))
  {
    if ops == [] {
    } else {
      RunAllLog(r, ops[..|ops| - 1]);
      RunStepLog(RunAll(r, ops[..|ops| - 1]), ops[|ops| - 1]);
    }
  }
}
