/** The ring of pool files as an object: each method is proved against the function of `PoolModel` it
    implements. The files on disk are the field `files`. */
module ChunkPoolClass {
  import opened Bytes
  import opened RecordFormat
  import opened PoolScan
  import opened PoolModel
  import opened Sorting

  /** One counter of active readers per pool file, shared by the writer and the request handlers. */
  class PoolReadCounters {
    const counters: array<nat>

    constructor (n: nat)
      ensures fresh(counters) && counters.Length == n && forall j :: 0 <= j < n ==> counters[j] == 0
    {
      counters := new nat[n](_ => 0);
    }

    /** A new guard on a file. */
    method Acquire(poolIdx: nat)
      requires poolIdx < counters.Length
      modifies counters
      ensures counters[..] == old(counters[..])[poolIdx := old(counters[poolIdx]) + 1]
    {
      counters[poolIdx] := counters[poolIdx] + 1;
    }

    predicate HasReaders(poolIdx: nat)
      requires poolIdx < counters.Length
      reads counters
    {
      counters[poolIdx] > 0
    }

    /** A guard is dropped. */
    method Release(poolIdx: nat)
      requires poolIdx < counters.Length && counters[poolIdx] > 0
      modifies counters
      ensures counters[..] == old(counters[..])[poolIdx := (old(counters[poolIdx]) - 1) as nat]
    {
      counters[poolIdx] := counters[poolIdx] - 1;
    }

    /** While one thread sleeps, others acquire and release: afterwards the counters are `later`. */
    method Elapse(later: seq<nat>)
      requires |later| == counters.Length
      modifies counters
      ensures counters[..] == later
    {
      forall j | 0 <= j < counters.Length {
        counters[j] := later[j];
      }
    }
  }

  /** A read of a location, with the reader counters at that moment. */
  datatype Read = Read(loc: Loc, counters: seq<nat>)

  /** What the counters are at look `k`, when `later(k)` is what they become during sleep `k`. */
  function CountersAt(start: seq<nat>, later: nat -> seq<nat>, k: nat): seq<nat> {
    if k == 0 then start else later(k - 1)
  }

  /** The order of a full scan: by pool id, then by offset. */
  predicate ScanLe(a: Scanned, b: Scanned) {
    a.poolId < b.poolId || (a.poolId == b.poolId && a.offset <= b.offset)
  }

  /** The records of files 0..k-1, file after file. */
  function ScanFiles(s: Store, k: nat, now: Instant): seq<Scanned>
    requires k <= |s.slots| == |s.files|
  {
    if k == 0 then []
    else ScanFiles(s, k - 1, now) + ScanFrom(s.files[k - 1], Origin(k - 1, s.slots[k - 1].poolId, now), POOL_HEADER)
  }

  function ScanAll(s: Store, now: Instant): seq<Scanned>
    requires |s.slots| == |s.files|
  {
    SortBy(ScanFiles(s, |s.slots|, now), ScanLe)
  }

  class ChunkPool {
    var capacity: nat
    var slots: seq<Slot>
    var writeIdx: nat
    var files: seq<seq<byte>>
    const readCounters: PoolReadCounters
    ghost var readLog: seq<Read>  // in order, since the pool was opened

    function State(): Store
      reads this
    {
      Store(capacity, slots, writeIdx, files)
    }

    ghost predicate Valid()
      reads this
    {
      PoolModel.Valid(State()) && readCounters.counters.Length == |slots|
    }

    constructor FromState(s: Store, readCounters: PoolReadCounters)
      ensures State() == s && this.readCounters == readCounters
    {
      capacity, slots, writeIdx, files := s.capacity, s.slots, s.writeIdx, s.files;
      this.readCounters := readCounters;
      readLog := [];
    }

    /** Opens the files found on disk, creating the missing ones. */
    static method Open(disk: Disk, poolSize: nat, env: Env) returns (pool: Option<ChunkPool>)
      requires 0 < |disk| < U64 && FullLength(disk, poolSize)
      ensures pool.Some? <==> PoolModel.Open(disk, poolSize, env).Some?
      ensures pool.Some? ==> fresh(pool.value) && fresh(pool.value.readCounters.counters) && pool.value.Valid()
                             && pool.value.State() == PoolModel.Open(disk, poolSize, env).value
      ensures pool.Some? ==> forall j :: 0 <= j < pool.value.readCounters.counters.Length ==>
                               pool.value.readCounters.counters[j] == 0
    {
      hide ReadPoolId, PoolHeader, ScanFrom, TotalSize, PoolModel.Valid, Patch, Written;
      var slots: seq<Slot>, files: seq<seq<byte>> := [], [];
      var bestIdx: nat, bestPoolId: nat := 0, 0;
      var anyExisting := false;
      for i := 0 to |disk|
        invariant |slots| == |files| == i
        invariant forall j :: 0 <= j < i ==>
                    slots[j] == OpenedSlot(disk, j, env.now) && files[j] == OpenedFile(disk, j, poolSize)
        invariant anyExisting == Latest(disk, i).Some?
        invariant anyExisting ==> bestIdx == Latest(disk, i).value && bestPoolId == ReadPoolId(disk[bestIdx].value)
        invariant !anyExisting ==> bestIdx == 0 && bestPoolId == 0
      {
        if disk[i].None? {
          files := files + [Zeros(POOL_HEADER + poolSize)];
          slots := slots + [Slot(i, 0)];
        } else {
          anyExisting := true;
          var pid := ReadPoolId(disk[i].value);
          var records := ScanRecords(disk[i].value, Origin(i, pid, env.now));
          if pid >= bestPoolId {
            bestPoolId := pid;
            bestIdx := i;
          }
          files := files + [disk[i].value];
          slots := slots + [Slot(pid, TotalSize(records))];
        }
      }
      ghost var spec := OpenedSlots(disk, poolSize, env.now);
      assert slots == spec.slots && files == spec.files;
      if !anyExisting {
        if env.header.Failed? {
          return None;
        }
        files := files[0 := Patch(files[0], 0, PoolHeader(slots[0].poolId, env.now))];
      }
      OpenValid(disk, poolSize, env);
      var readCounters := new PoolReadCounters(|disk|);
      var p := new ChunkPool.FromState(Store(poolSize, slots, if anyExisting then bestIdx else 0, files), readCounters);
      pool := Some(p);
    }

    method Status() returns (idx: nat, used: nat, cap: nat)
      requires Valid()
      ensures idx == writeIdx && used == slots[writeIdx].used && cap == capacity
    {
      idx, used, cap := writeIdx, slots[writeIdx].used, capacity;
    }

    /** Waits, for at most 50 sleeps, until the next file has no readers, then turns to it whether it still has
        some or not. During sleep `k` the counters become `later(k)`. */
    method Rotate(env: Env, later: nat -> seq<nat>) returns (ok: bool, waited: nat)
      requires Valid() && forall k: nat :: |later(k)| == |slots|
      modifies this, readCounters.counters
      ensures Valid() && State() == PoolModel.Rotate(old(State()), env.now, env.header)
      ensures ok <==> env.header.Done?
      ensures waited <= 50
      ensures readCounters.counters[..] == CountersAt(old(readCounters.counters[..]), later, waited)
      ensures forall k: nat :: k < waited ==> CountersAt(old(readCounters.counters[..]), later, k)[writeIdx] > 0
      ensures waited < 50 ==> readCounters.counters[writeIdx] == 0
    {
      ghost var start := readCounters.counters[..];
      writeIdx := (writeIdx + 1) % |slots|;
      waited := 0;
      while readCounters.HasReaders(writeIdx) && waited < MAX_POLLS
        invariant State() == old(State()).(writeIdx := NextIdx(old(State()))) && |start| == |slots|
        invariant waited <= MAX_POLLS && readCounters.counters[..] == CountersAt(start, later, waited)
        invariant forall k: nat :: k < waited ==> CountersAt(start, later, k)[writeIdx] > 0
        decreases MAX_POLLS - waited
      {
        assert readCounters.counters[..][writeIdx] > 0;
        readCounters.Elapse(later(waited));
        waited := waited + 1;
      }
      var id := (slots[writeIdx].poolId + |slots|) % U64;
      slots := slots[writeIdx := Slot(id, 0)];
      ok := WritePoolHeader(writeIdx, env);
    }

    method WritePoolHeader(idx: nat, env: Env) returns (ok: bool)
      requires idx < |slots| == |files| && |files[idx]| >= POOL_HEADER
      modifies this`files
      ensures ok <==> env.header.Done?
      ensures var header := PoolHeader(slots[idx].poolId, env.now);
              files == old(files)[idx := Patch(old(files)[idx], 0, Written(header, env.header))]
    {
      files := files[idx := Patch(files[idx], 0, Written(PoolHeader(slots[idx].poolId, env.now), env.header))];
      ok := env.header.Done?;
    }

    method Append(q: Request, env: Env, later: nat -> seq<nat>) returns (outcome: Outcome)
      requires Valid() && forall k: nat :: |later(k)| == |slots|
      modifies this, readCounters.counters
      ensures Valid() && (State(), outcome) == PoolModel.Append(old(State()), q, env)
    {
      hide EncodeHeader, PoolHeader, Patch;
      var size := RecordSize(q);
      if size > capacity {
        return Refused(TooLarge);
      }
      if slots[writeIdx].used + size > capacity {
        var ok, _ := Rotate(env, later);
        if !ok {
          return Refused(HeaderFailed);
        }
      }
      var slot := slots[writeIdx];
      var offset := POOL_HEADER + slot.used;
      files := files[writeIdx := Patch(files[writeIdx], offset, Written(EncodeRecord(q), env.record))];
      if env.record.Failed? {
        return Refused(RecordFailed);
      }
      outcome := Placed(Loc(writeIdx, slot.poolId, offset, size));
      slots := slots[writeIdx := slot.(used := slot.used + size)];
    }

    method ReadSegmentData(loc: Loc) returns (data: Option<seq<byte>>)
      requires Addressable(State(), loc)
      modifies this`readLog
      ensures data == ReadSegment(State(), loc)
      ensures readLog == old(readLog) + [Read(loc, readCounters.counters[..])]
    {
      readLog := readLog + [Read(loc, readCounters.counters[..])];
      var file := files[loc.poolIdx];
      var at := loc.offset + RECORD_HEADER;
      var len := loc.size - RECORD_HEADER;
      data := if at + len <= |file| then Some(file[at..at + len]) else None;
    }

    method ScanAllPools(now: Instant) returns (all: seq<Scanned>)
      requires Valid()
      ensures all == ScanAll(State(), now)
    {
      all := [];
      for i := 0 to |slots|
        invariant all == ScanFiles(State(), i, now)
      {
        var records := ScanRecords(files[i], Origin(i, slots[i].poolId, now));
        all := all + records;
      }
      all := SortBy(all, ScanLe);
    }
  }
}
