/** Which file a restart resumes at, and whether a full scan lists recordings in the order they were made, for
    a store created fresh and then rotated any number of times without a failed header write. */
module Resume {
  import opened Bytes
  import opened RecordFormat
  import opened PoolScan
  import opened PoolModel
  import opened IndexModel
  import opened Sorting
  import opened ChunkPoolClass
  import opened WriterModel
  import opened Recovery
  import opened RingHistory

  predicate HeadersSucceed(ops: seq<Op>) {
    forall i :: 0 <= i < |ops| ==> ops[i].env.header.Done?
  }

  /** No record write fails. */
  predicate WritesSucceed(ops: seq<Op>) {
    forall i :: 0 <= i < |ops| ==> ops[i].env.record.Done?
  }

  lemma RemainderOf(n: int, q: int, m: int)
    requires 0 <= m < n
    ensures (n * q + m) % n == m
  {
    var a := n * q + m;
    var d := q - a / n;
    assert n * d == a % n - m by {
      assert n * d == n * q - n * (a / n);
    }
    MultipleGap(n, d);
  }

  lemma MultipleGap(n: int, d: int)
    requires n > 0
    ensures (d >= 1 ==> n * d >= n) && (d <= -1 ==> n * d <= -n)
  {
  }

  lemma ModNext(a: nat, n: nat)
    requires n > 0
    ensures (a + 1) % n == if a % n + 1 == n then 0 else a % n + 1
  {
    var q, m := a / n, a % n;
    if m + 1 == n {
      assert a + 1 == n * (q + 1) + 0;
      RemainderOf(n, q + 1, 0);
    } else {
      assert a + 1 == n * q + (m + 1);
      RemainderOf(n, q, m + 1);
    }
  }

  /** Closed form of the id in memory after `rot` rotations, writing file `w`. */
  function MemoryId(rot: nat, w: nat, n: nat, j: nat): int {
    if j == 0 then rot - w else if j <= w then rot - w + j + n else rot - w + j
  }

  /** Closed form of the id a restart reads: file 0 starts at 0, the others only have a header once rotated into. */
  function DiskId(rot: nat, w: nat, n: nat, j: nat): int {
    if 0 != j > w && rot < n then 0 else MemoryId(rot, w, n, j)
  }

  /** The writer is at file `rotations mod n` and every id follows the closed forms. */
  ghost predicate IdsFollow(r: Run)
    requires Valid(r.sys.store)
  {
    var s, rot := r.sys.store, r.rotations;
    && s.writeIdx == rot % |s.slots| && rot >= s.writeIdx && (rot < |s.slots| ==> s.writeIdx == rot)
    && (forall j: nat {:trigger s.slots[j]} {:trigger s.files[j]} :: j < |s.slots| ==>
          s.slots[j].poolId == MemoryId(rot, s.writeIdx, |s.slots|, j)
          && ReadPoolId(s.files[j]) == DiskId(rot, s.writeIdx, |s.slots|, j))
  }

  lemma HeaderKept(file: seq<byte>, at: nat, data: seq<byte>)
    requires POOL_HEADER <= at && at + |data| <= |file|
    ensures ReadPoolId(Patch(file, at, data)) == ReadPoolId(file)
  {
    hide FromLittle;
    assert Patch(file, at, data)[..8] == file[..8];
    assert Patch(file, at, data)[8..16] == file[8..16];
  }

  lemma RecordedFollow(r: Run, q: Request, io: Io)
    requires Valid(r.sys.store) && Sized(r) && IdsFollow(r) && !Full(r.sys.store, RecordSize(q))
    ensures Valid(Recorded(r, q, io).sys.store) && IdsFollow(Recorded(r, q, io))
  {
    hide ReadPoolId, EncodeHeader, Insert, Patch;
    var s := r.sys.store;
    HeaderKept(s.files[s.writeIdx], POOL_HEADER + s.slots[s.writeIdx].used, Written(EncodeRecord(q), io));
  }

  lemma RotatedHeader(s: Store, now: Instant)
    requires Valid(s) && s.slots[NextIdx(s)].poolId + |s.slots| < U64
    ensures var s', j := Rotate(s, now, Done), NextIdx(s);
            && s'.writeIdx == j && |s'.slots| == |s'.files| == |s.slots| && s'.capacity == s.capacity
            && s'.slots[j].poolId == ReadPoolId(s'.files[j]) == s.slots[j].poolId + |s.slots|
            && s'.slots[j].used == 0
            && forall i: nat {:trigger s'.slots[i]} {:trigger s'.files[i]} :: i < |s.slots| && i != j ==>
                 s'.slots[i] == s.slots[i] && s'.files[i] == s.files[i]
  {
    hide ReadPoolId, PoolHeader, Patch;
    var j := NextIdx(s);
    PoolIdRoundTrip(s.files[j], s.slots[j].poolId + |s.slots|, now);
  }

  lemma RotatedFollow(r: Run, now: Instant)
    requires Valid(r.sys.store) && Sized(r) && IdsFollow(r) && r.rotations + 1 + |r.turns| < U64
    ensures IdsFollow(Rotated(r, now, Done))
  {
    hide ReadPoolId, Rotate, MemoryId, DiskId, NextIdx;
    var s, n, w := r.sys.store, |r.turns|, r.sys.store.writeIdx;
    NextIdxCases(s);
    ModNext(r.rotations, n);
    NextIds(r.rotations, w, n);
    var next := NextIdx(s);
    assert s.slots[next].poolId == MemoryId(r.rotations, w, n, next);
    RotatedHeader(s, now);
    var s' := Rotated(r, now, Done).sys.store;
    forall j: nat | j < n
      ensures s'.slots[j].poolId == MemoryId(r.rotations + 1, next, n, j)
      ensures ReadPoolId(s'.files[j]) == DiskId(r.rotations + 1, next, n, j)
    {
      assert s.slots[j].poolId == MemoryId(r.rotations, w, n, j);
    }
  }

  /** How the closed forms move when the ring does. */
  lemma NextIds(rot: nat, w: nat, n: nat)
    requires w < n && rot >= w && (rot < n ==> w == rot)
    ensures var next := if w + 1 == n then 0 else w + 1;
            && MemoryId(rot + 1, next, n, next) == MemoryId(rot, w, n, next) + n == DiskId(rot + 1, next, n, next)
            && 0 <= MemoryId(rot, w, n, next) <= rot + 1
            && forall j: nat :: j < n && j != next ==>
                 MemoryId(rot + 1, next, n, j) == MemoryId(rot, w, n, j)
                 && DiskId(rot + 1, next, n, j) == DiskId(rot, w, n, j)
  {
  }

  lemma StepFollow(r: Run, op: Op)
    requires Valid(r.sys.store) && Sized(r) && IdsFollow(r) && op.env.header.Done?
    requires RunStep(r, op).rotations + |r.turns| < U64
    ensures IdsFollow(RunStep(r, op))
  {
    hide ReadPoolId, PoolHeader, EncodeRecord, Patch, Evict, Insert;
    var full := Full(r.sys.store, RecordSize(op.req));
    var r1 := if full then Evicted(r) else r;
    assert IdsFollow(r1);
    if RecordSize(op.req) <= r.sys.store.capacity {
      if full {
        RotatedFollow(r1, op.env.now);
        RecordedFollow(Rotated(r1, op.env.now, Done), op.req, op.env.record);
      } else {
        RecordedFollow(r1, op.req, op.env.record);
      }
    }
  }

  lemma {:induction false} RunFollow(r: Run, ops: seq<Op>)
    requires Valid(r.sys.store) && Sized(r) && IdsFollow(r) && HeadersSucceed(ops)
    requires RunAll(r, ops).rotations + |r.turns| < U64
    ensures IdsFollow(RunAll(r, ops))
  {
    hide IdsFollow, RunStep, Valid, Sized;
    if ops == [] {
    } else {
      var before := RunAll(r, ops[..|ops| - 1]);
      StepRotations(before, ops[|ops| - 1]);
      RunFollow(r, ops[..|ops| - 1]);
      StepFollow(before, ops[|ops| - 1]);
    }
  }

  lemma StepRotations(r: Run, op: Op)
    requires Valid(r.sys.store) && Sized(r)
    ensures r.rotations <= RunStep(r, op).rotations
  {
    StepExtends(r, op);
  }

  lemma FreshFollow(n: nat, capacity: nat, now: Instant)
    requires 0 < n < U64
    ensures IdsFollow(Fresh(n, capacity, now))
  {
    var r := Fresh(n, capacity, now);
    FreshFiles(n, capacity, now, 0);
    assert r.sys.store == FreshStore(n, capacity, now) && r.rotations == 0;
    hide FreshStore, Fresh, ReadPoolId;
    forall j: nat | j < n ensures r.sys.store.slots[j].poolId == j && ReadPoolId(r.sys.store.files[j]) == 0 {
      FreshFiles(n, capacity, now, j);
    }
  }

  /** The disk a store leaves behind when the process ends. */
  function DiskOf(s: Store): (d: Disk)
    ensures |d| == |s.files|
  {
    seq(|s.files|, i requires 0 <= i < |s.files| => Some(s.files[i]))
  }

  lemma Reopen(s: Store, env: Env)
    requires Valid(s) && |s.slots| < U64
    ensures FullLength(DiskOf(s), s.capacity)
    ensures Open(DiskOf(s), s.capacity, env).Some?
    ensures var o := Open(DiskOf(s), s.capacity, env).value;
            && Valid(o) && UsedAsScanned(o, env.now) && o.files == s.files && o.capacity == s.capacity
            && Latest(DiskOf(s), |s.files|) == Some(o.writeIdx) && |o.slots| == |s.slots|
            && forall j :: 0 <= j < |s.slots| ==> o.slots[j].poolId == ReadPoolId(s.files[j])
  {
    hide ReadPoolId, Latest, ScanFrom, TotalSize;
    var d := DiskOf(s);
    assert Latest(d, |d|).Some? by {
      assert d[0].Some?;
    }
    OpenedUsedAsScanned(d, s.capacity, env);
  }

  /** Where a restart resumes: at the file written last, except that when the ring has just come round to
      file 0 it resumes at file n-1 instead. So the last written file is resumed if and only if n = 1 or the
      number of rotations is not a multiple of n. */
  lemma ResumesAt(n: nat, capacity: nat, now: Instant, ops: seq<Op>, env: Env)
    requires 0 < n < U64 && HeadersSucceed(ops)
    requires RunAll(Fresh(n, capacity, now), ops).rotations + n < U64
    ensures var r := RunAll(Fresh(n, capacity, now), ops);
            var s := r.sys.store;
            && s.writeIdx == r.rotations % n
            && |s.slots| == n && FullLength(DiskOf(s), s.capacity) && Open(DiskOf(s), s.capacity, env).Some?
            && var resumed := Open(DiskOf(s), s.capacity, env).value.writeIdx;
               && (resumed == r.rotations % n <==> n == 1 || r.rotations % n != 0)
               && (resumed != r.rotations % n ==> resumed == n - 1)
  {
    FreshFollow(n, capacity, now);
    RunFollow(Fresh(n, capacity, now), ops);
    var r := RunAll(Fresh(n, capacity, now), ops);
    hide RunAll, Fresh, ReadPoolId, ScanFrom, Open;
    Reopen(r.sys.store, env);
    LatestFile(r, env);
  }

  lemma LatestIs(d: Disk, best: nat)
    requires best < |d| && forall i :: 0 <= i < |d| ==> d[i].Some? && |d[i].value| >= POOL_HEADER
    requires forall i :: 0 <= i < |d| ==> ReadPoolId(d[i].value) <= ReadPoolId(d[best].value)
    requires forall i :: best < i < |d| ==> ReadPoolId(d[i].value) < ReadPoolId(d[best].value)
    ensures Latest(d, |d|) == Some(best)
  {
    hide ReadPoolId;
    assert d[0].Some?;
    var b := Latest(d, |d|).value;
    assert ReadPoolId(d[best].value) <= ReadPoolId(d[b].value);
  }

  lemma LatestFile(r: Run, env: Env)
    requires Valid(r.sys.store) && Sized(r) && IdsFollow(r) && |r.turns| < U64
    ensures Latest(DiskOf(r.sys.store), |r.turns|)
            == Some(if |r.turns| == 1 || r.sys.store.writeIdx != 0 then r.sys.store.writeIdx else |r.turns| - 1)
  {
    hide ReadPoolId, Latest;
    var s, n := r.sys.store, |r.turns|;
    var d := DiskOf(s);
    assert forall j: nat :: j < n ==> d[j] == Some(s.files[j]);
    LatestIs(d, if n == 1 || s.writeIdx != 0 then s.writeIdx else n - 1);
  }

  // ---- the order of the full scan ----

  /** The rotation with which the pass now in file `j` began. */
  ghost predicate InWrittenOrder(r: Run, records: seq<Scanned>) {
    forall a, b :: 0 <= a < b < |records| ==> Pass(r, records[a].poolIdx) <= Pass(r, records[b].poolIdx)
  }

  /** Files no rotation has reached are blank; once there has been a rotation, all others hold a record. */
  ghost predicate Filled(r: Run)
    requires Valid(r.sys.store)
  {
    var s := r.sys.store;
    forall j: nat {:trigger s.slots[j]} {:trigger s.files[j]} :: j < |s.slots| ==>
      if ReachedFile(r, j) then (r.rotations > 0 ==> s.slots[j].used > 0)
      else s.slots[j].used == 0 && forall i :: POOL_HEADER <= i < |s.files[j]| ==> s.files[j][i] == 0
  }

  /** What one write does to the bytes of the store: one file changes, up to the new end of its used part. */
  lemma RecordShape(s: Store, q: Request)
    requires Valid(s) && !Full(s, RecordSize(q))
    ensures var s', w := WriteRecord(s, q, Done).0, s.writeIdx;
            && s'.writeIdx == w && |s'.slots| == |s.slots| == |s'.files| && s'.capacity == s.capacity
            && s'.slots[w].used == s.slots[w].used + RecordSize(q)
            && (forall j: nat :: j < |s.slots| && j != w ==> s'.slots[j] == s.slots[j] && s'.files[j] == s.files[j])
            && |s'.files[w]| == |s.files[w]|
            && forall i :: POOL_HEADER + s'.slots[w].used <= i < |s.files[w]| ==> s'.files[w][i] == s.files[w][i]
  {
    hide EncodeHeader;
  }

  lemma TurnShape(s: Store, now: Instant)
    requires Valid(s)
    ensures var s', w := Rotate(s, now, Done), NextIdx(s);
            && s'.writeIdx == w && |s'.slots| == |s.slots| == |s'.files| && s'.capacity == s.capacity
            && s'.slots[w].used == 0
            && (forall j: nat :: j < |s.slots| && j != w ==> s'.slots[j] == s.slots[j] && s'.files[j] == s.files[j])
            && |s'.files[w]| == |s.files[w]|
            && forall i :: POOL_HEADER <= i < |s.files[w]| ==> s'.files[w][i] == s.files[w][i]
  {
    hide PoolHeader;
    assert |PoolHeader((s.slots[NextIdx(s)].poolId + |s.slots|) % U64, now)| == POOL_HEADER;
  }

  lemma StepShape(r: Run, op: Op)
    requires Valid(r.sys.store) && Sized(r) && Succeeds(r.sys.store.capacity, op)
    ensures var s, r' := r.sys.store, RunStep(r, op);
            var s', full := r'.sys.store, Full(s, RecordSize(op.req));
            var w := if full then NextIdx(s) else s.writeIdx;
            && s'.writeIdx == w && |s'.slots| == |s.slots| == |s'.files| && s'.capacity == s.capacity
            && r'.rotations == r.rotations + (if full then 1 else 0)
            && s'.slots[w].used == (if full then 0 else s.slots[w].used) + RecordSize(op.req)
            && (forall j: nat :: j < |s.slots| && j != w ==> s'.slots[j] == s.slots[j] && s'.files[j] == s.files[j])
            && |s'.files[w]| == |s.files[w]|
            && forall i :: POOL_HEADER + s'.slots[w].used <= i < |s.files[w]| ==> s'.files[w][i] == s.files[w][i]
  {
    var s, q := r.sys.store, op.req;
    if Full(s, RecordSize(q)) {
      TurnShape(s, op.env.now);
      RecordShape(Rotate(s, op.env.now, Done), q);
    } else {
      RecordShape(s, q);
    }
    hide Rotate, WriteRecord, Valid, NextIdx, EncodeRecord, Evict, Insert;
  }

  lemma StepFilled(r: Run, op: Op)
    requires Valid(r.sys.store) && Sized(r) && IdsFollow(r) && Filled(r)
    requires op.env.header.Done? && op.env.record.Done?
    ensures Filled(RunStep(r, op))
  {
    if RecordSize(op.req) > r.sys.store.capacity {
      StepRefuses(r, op);
      hide RunStep, IndexModel.Evict, ReadPoolId;
    } else {
      NextIdxCases(r.sys.store);
      StepShape(r, op);
      hide ReadPoolId, MemoryId, DiskId, RunStep, Full, NextIdx;
    }
  }

  lemma {:induction false} RunFilled(r: Run, ops: seq<Op>)
    requires Valid(r.sys.store) && Sized(r) && IdsFollow(r) && Filled(r)
    requires HeadersSucceed(ops) && WritesSucceed(ops)
    requires RunAll(r, ops).rotations + |r.turns| < U64
    ensures IdsFollow(RunAll(r, ops)) && Filled(RunAll(r, ops))
  {
    RunFollow(r, ops);
    hide IdsFollow, Filled, RunStep, Valid, Sized;
    if ops == [] {
    } else {
      var before := RunAll(r, ops[..|ops| - 1]);
      StepRotations(before, ops[|ops| - 1]);
      RunFilled(r, ops[..|ops| - 1]);
      RunExtends(r, ops[..|ops| - 1]);
      StepFilled(before, ops[|ops| - 1]);
    }
  }

  /** The record is the encoding of a request. */
  predicate Encoded(h: Accepted) {
    |h.raw| >= RECORD_HEADER
    && h.raw == EncodeRecord(Request(h.meta.camera, h.meta.start, h.meta.end, h.raw[RECORD_HEADER..]))
  }

  ghost predicate AllEncoded(hist: seq<Accepted>) {
    forall i :: 0 <= i < |hist| ==> Encoded(hist[i])
  }

  lemma {:induction false} RunEncoded(r: Run, ops: seq<Op>)
    requires Valid(r.sys.store) && Sized(r) && AllEncoded(r.hist)
    ensures AllEncoded(RunAll(r, ops).hist)
  {
    hide EncodeHeader, PoolHeader, Evict, Insert, Patch;
    if ops == [] {
    } else {
      RunEncoded(r, ops[..|ops| - 1]);
      RunExtends(r, ops[..|ops| - 1]);
    }
  }

  /** A header whose length field reaches no further than the record: so with every written one, since the field
      holds the length modulo 2^32. */
  predicate HeaderFits(raw: seq<byte>) {
    |raw| >= RECORD_HEADER
    && var h := ParseHeader(raw[..RECORD_HEADER]); h.Some? && RECORD_HEADER + h.value.dataLen <= |raw|
  }

  lemma EncodedFits(h: Accepted)
    requires Encoded(h)
    ensures HeaderFits(h.raw)
  {
    var q := Request(h.meta.camera, h.meta.start, h.meta.end, h.raw[RECORD_HEADER..]);
    ParseEncoded(q);
    hide ParseHeader, EncodeHeader;
  }

  lemma {:induction false} PassLogFits(hist: seq<Accepted>, j: nat, turn: nat)
    requires AllEncoded(hist)
    ensures forall i :: 0 <= i < |PassLog(hist, j, turn)| ==> HeaderFits(PassLog(hist, j, turn)[i])
  {
    hide HeaderFits, Encoded;
    if hist == [] {
    } else {
      PassLogFits(hist[..|hist| - 1], j, turn);
      EncodedFits(hist[|hist| - 1]);
    }
  }

  lemma FitsAtStart(file: seq<byte>, off: nat, raws: seq<seq<byte>>)
    requires raws != [] && HeaderFits(raws[0]) && off + |Concat(raws)| <= |file|
    requires file[off..off + |Concat(raws)|] == Concat(raws)
    ensures Fits(file, off)
  {
    hide ParseHeader;
    LaidOut(file, off, raws[0], Concat(raws[1..]));
    assert file[off..off + RECORD_HEADER] == file[off..off + |raws[0]|][..RECORD_HEADER];
  }

  /** A file with a used part has records to find; a blank one has none. */
  lemma FilledFileScan(r: Run, o: Store, j: nat, now: Instant)
    requires Inv(r) && UsedIsLog(r) && AllEncoded(r.hist) && j < |r.turns|
    requires Valid(o) && o.files == r.sys.store.files
    ensures r.sys.store.slots[j].used > 0 ==> FileScan(o, j, now) != []
    ensures (forall i :: POOL_HEADER <= i < |o.files[j]| ==> o.files[j][i] == 0) ==> FileScan(o, j, now) == []
  {
    hide Inv, PassLog, AllEncoded, HeaderFits, Fits, RecordAt, PoolIdAfter;
    InvIds(r);
    var log := PassLog(r.hist, j, r.turns[j]);
    assert r.sys.store.files[j][POOL_HEADER..POOL_HEADER + r.sys.store.slots[j].used] == Concat(log);
    if r.sys.store.slots[j].used > 0 {
      assert |Concat(log)| > 0;
      PassLogFits(r.hist, j, r.turns[j]);
      FitsAtStart(o.files[j], POOL_HEADER, log);
    }
    if forall i :: POOL_HEADER <= i < |o.files[j]| ==> o.files[j][i] == 0 {
      NoMagicNoRecord(o.files[j], Origin(j, o.slots[j].poolId, now), POOL_HEADER);
    }
  }

  /** What the order theorem needs to know about a run and the store reopened after it. */
  ghost predicate Reopened(r: Run, o: Store, now: Instant) {
    && Inv(r) && UsedIsLog(r) && AllEncoded(r.hist) && IdsFollow(r) && Filled(r)
    && Valid(o) && o.files == r.sys.store.files && |o.slots| == |r.turns|
    && (forall j: nat :: j < |o.slots| ==> o.slots[j].poolId == ReadPoolId(o.files[j]))
  }

  lemma ScannedRecordFile(r: Run, o: Store, now: Instant, a: nat)
    requires Reopened(r, o, now) && a < |ScanAll(o, now)|
    ensures var rec := ScanAll(o, now)[a];
            && rec.poolIdx < |r.turns| && ReachedFile(r, rec.poolIdx)
            && rec.poolId == DiskId(r.rotations, r.sys.store.writeIdx, |r.turns|, rec.poolIdx)
  {
    hide Inv, UsedIsLog, ScanAll, ScanFrom, AllEncoded, ReadPoolId, TotalSize;
    var rec := ScanAll(o, now)[a];
    FullScanRecords(o, now);
    FullScanByFile(o, rec.poolIdx, now);
    FilledFileScan(r, o, rec.poolIdx, now);
    RingPosition(r, o, now);
    assert r.sys.store.files[rec.poolIdx] == o.files[rec.poolIdx];
    assert rec in Filter(ScanAll(o, now), InFile(rec.poolIdx));
    assert FileScan(o, rec.poolIdx, now) != [];
  }

  lemma FileInScan(r: Run, o: Store, now: Instant, j: nat) returns (a: nat)
    requires Reopened(r, o, now) && j < |r.turns| && ReachedFile(r, j) && r.rotations > 0
    ensures a < |ScanAll(o, now)| && ScanAll(o, now)[a].poolIdx == j
  {
    hide Inv, UsedIsLog, ScanAll, ScanFrom, AllEncoded, ReadPoolId;
    FilledFileScan(r, o, j, now);
    FullScanByFile(o, j, now);
    RingPosition(r, o, now);
    assert r.sys.store.slots[j].used > 0;
    var rec := FileScan(o, j, now)[0];
    assert rec in Filter(ScanAll(o, now), InFile(j));
    a :| 0 <= a < |ScanAll(o, now)| && ScanAll(o, now)[a] == rec;
  }

  lemma ScanSorted(o: Store, now: Instant)
    requires |o.slots| == |o.files|
    ensures Sorted(ScanAll(o, now), ScanLe)
  {
    SortSorts(ScanFiles(o, |o.slots|, now), ScanLe);
  }

  lemma OrderHolds(r: Run, o: Store, now: Instant, a: nat, b: nat)
    requires Reopened(r, o, now) && a < b < |ScanAll(o, now)|
    requires r.rotations < |r.turns| || r.sys.store.writeIdx == |r.turns| - 1
    ensures Pass(r, ScanAll(o, now)[a].poolIdx) <= Pass(r, ScanAll(o, now)[b].poolIdx)
  {
    ScanSorted(o, now);
    ScannedRecordFile(r, o, now, a);
    ScannedRecordFile(r, o, now, b);
    RingPosition(r, o, now);
    hide Reopened, ScanAll;
    assert ScanLe(ScanAll(o, now)[a], ScanAll(o, now)[b]);
  }

  lemma OrderFails(r: Run, o: Store, now: Instant)
    requires Reopened(r, o, now)
    requires r.rotations >= |r.turns| && r.sys.store.writeIdx != |r.turns| - 1
    ensures !InWrittenOrder(r, ScanAll(o, now))
  {
    RingPosition(r, o, now);
    var a := FileInScan(r, o, now, 0);
    var b := FileInScan(r, o, now, r.sys.store.writeIdx + 1);
    ScannedRecordFile(r, o, now, a);
    ScannedRecordFile(r, o, now, b);
    ScanSorted(o, now);
    hide Reopened, ScanAll;
    assert !ScanLe(ScanAll(o, now)[b], ScanAll(o, now)[a]);
    assert a < b;
    assert Pass(r, ScanAll(o, now)[a].poolIdx) > Pass(r, ScanAll(o, now)[b].poolIdx);
  }

  lemma RingPosition(r: Run, o: Store, now: Instant)
    requires Reopened(r, o, now)
    ensures var w := r.sys.store.writeIdx;
            && w < |r.turns| == |r.sys.store.slots| && r.rotations % |r.turns| == w <= r.rotations
            && (r.rotations < |r.turns| ==> w == r.rotations)
  {
  }

  lemma OrderIff(r: Run, o: Store, now: Instant)
    requires Reopened(r, o, now)
    ensures InWrittenOrder(r, ScanAll(o, now)) <==>
            r.rotations < |r.turns| || r.rotations % |r.turns| == |r.turns| - 1
  {
    RingPosition(r, o, now);
    hide Reopened, ScanAll, Pass;
    if r.rotations < |r.turns| || r.sys.store.writeIdx == |r.turns| - 1 {
      forall a: nat, b: nat | a < b < |ScanAll(o, now)|
        ensures Pass(r, ScanAll(o, now)[a].poolIdx) <= Pass(r, ScanAll(o, now)[b].poolIdx)
      {
        OrderHolds(r, o, now, a, b);
      }
    } else {
      OrderFails(r, o, now);
    }
  }

  /** After any run of a fresh store in which no write fails, whatever the sizes of the requests, the full scan of
      the reopened store lists recordings in the order their files were written if and only if the ring has not
      come round yet or stands at its last file. */
  lemma ScanInOrderIff(n: nat, capacity: nat, now: Instant, ops: seq<Op>, env: Env)
    requires 0 < n < U64 && HeadersSucceed(ops) && WritesSucceed(ops)
    requires RunAll(Fresh(n, capacity, now), ops).rotations + n < U64
    ensures var r := RunAll(Fresh(n, capacity, now), ops);
            var s := r.sys.store;
            && FullLength(DiskOf(s), s.capacity) && Open(DiskOf(s), s.capacity, env).Some?
            && var o := Open(DiskOf(s), s.capacity, env).value;
               && |o.slots| == |o.files|
               && (InWrittenOrder(r, ScanAll(o, env.now)) <==> r.rotations < n || r.rotations % n == n - 1)
  {
    var r := RunAll(Fresh(n, capacity, now), ops);
    RunReopened(n, capacity, now, ops, env);
    hide RunAll, Fresh, Open, ScanAll;
    OrderIff(r, Open(DiskOf(r.sys.store), r.sys.store.capacity, env).value, env.now);
  }

  lemma FreshFilled(n: nat, capacity: nat, now: Instant)
    requires 0 < n < U64
    ensures Filled(Fresh(n, capacity, now))
  {
    var r := Fresh(n, capacity, now);
    FreshFiles(n, capacity, now, 0);
    assert r.sys.store == FreshStore(n, capacity, now) && r.rotations == 0;
    hide FreshStore, Fresh, ReadPoolId, ScanFrom;
    forall j: nat | j < n
      ensures r.sys.store.slots[j].used == 0
      ensures forall i :: POOL_HEADER <= i < |r.sys.store.files[j]| ==> r.sys.store.files[j][i] == 0
    {
      FreshFiles(n, capacity, now, j);
    }
  }

  lemma RunReopened(n: nat, capacity: nat, now: Instant, ops: seq<Op>, env: Env)
    requires 0 < n < U64 && HeadersSucceed(ops) && WritesSucceed(ops)
    requires RunAll(Fresh(n, capacity, now), ops).rotations + n < U64
    ensures var r := RunAll(Fresh(n, capacity, now), ops);
            var s := r.sys.store;
            && |r.turns| == n && s.capacity == capacity
            && FullLength(DiskOf(s), s.capacity) && Open(DiskOf(s), s.capacity, env).Some?
            && var o := Open(DiskOf(s), s.capacity, env).value;
               Reopened(r, o, env.now) && UsedAsScanned(o, env.now) && o.capacity == capacity
  {
    var r0 := Fresh(n, capacity, now);
    FreshFollow(n, capacity, now);
    FreshFilled(n, capacity, now);
    FreshStart(n, capacity, now);
    FreshCapacity(n, capacity, now);
    hide Fresh, RunAll, Inv, UsedIsLog, IdsFollow, Filled, Open, HeadersSucceed, WritesSucceed, ReadPoolId, ScanFrom,
      UsedAsScanned;
    RunFilled(r0, ops);
    RunAllLog(r0, ops);
    RunEncoded(r0, ops);
    RunExtends(r0, ops);
    Reopen(RunAll(r0, ops).sys.store, env);
  }
}
