/** Runs of a store created fresh: the index refines the history (it is always the newest part of it), and
    how much a ring of n files retains. */
module RingHistory {
  import opened Bytes
  import opened RecordFormat
  import opened PoolScan
  import opened PoolModel
  import opened IndexModel
  import opened Sorting
  import opened ChunkPoolClass
  import opened WriterModel
  import opened Recovery
  import opened ScanRoundTrip

  function NoFiles(n: nat): Disk {
    seq(n, _ => None)
  }

  /** A store of `n` files just created on an empty disk. */
  function FreshStore(n: nat, capacity: nat, now: Instant): (s: Store)
    requires 0 < n < U64
    ensures Valid(s)
  {
    OpenValid(NoFiles(n), capacity, Env(now, Done, Done));
    Open(NoFiles(n), capacity, Env(now, Done, Done)).value
  }

  function Fresh(n: nat, capacity: nat, now: Instant): (r: Run)
    requires 0 < n < U64
    ensures Valid(r.sys.store) && Sized(r) && |r.turns| == n
  {
    Start(FreshStore(n, capacity, now), now)
  }

  lemma FreshFiles(n: nat, capacity: nat, now: Instant, j: nat)
    requires 0 < n < U64 && j < n
    ensures var s := FreshStore(n, capacity, now);
            && |s.slots| == n && s.slots[j] == Slot(j, 0) && s.writeIdx == 0 && s.capacity == capacity
            && (forall i :: POOL_HEADER <= i < |s.files[j]| ==> s.files[j][i] == 0)
            && ReadPoolId(s.files[j]) == 0
            && FileScan(s, j, now) == []
  {
    hide ScanFrom, Fits;
    var s := FreshStore(n, capacity, now);
    if j == 0 {
      PoolIdRoundTrip(Zeros(POOL_HEADER + capacity), 0, now);
    } else {
      assert s.files[j][..8][0] == 0;
    }
    NoMagicNoRecord(s.files[j], Origin(j, j, now), POOL_HEADER);
  }

  lemma {:induction false} EmptyScan(s: Store, k: nat, now: Instant)
    requires k <= |s.slots| == |s.files| && forall j :: 0 <= j < k ==> FileScan(s, j, now) == []
    ensures ScanFiles(s, k, now) == []
  {
    hide ScanFrom;
    if k == 0 {
    } else {
      EmptyScan(s, k - 1, now);
      ScanFilesSnoc(s, k, now);
    }
  }

  lemma FreshStart(n: nat, capacity: nat, now: Instant)
    requires 0 < n < U64
    ensures var r := Fresh(n, capacity, now);
            && Inv(r) && UsedIsLog(r) && r.hist == [] && r.sys.index == EMPTY_INDEX && r.rotations == 0
            && UsedAsScanned(FreshStore(n, capacity, now), now)
  {
    hide ScanFrom, FreshStore, ReadPoolId, Inv, UsedIsLog;
    var s := FreshStore(n, capacity, now);
    FreshFiles(n, capacity, now, 0);
    forall j | 0 <= j < |s.slots|
      ensures s.slots[j].used == TotalSize(FileScan(s, j, now)) && FileScan(s, j, now) == []
    {
      FreshFiles(n, capacity, now, j);
    }
    EmptyScan(s, n, now);
    StartLog(s, now);
  }

  // ---- the index refines the history ----

  /** The rotation that started the pass file `j` is in, when the current one is number `rotations` and writes
      file `w`; negative for a file no rotation has reached. */
  function PassOf(rotations: nat, w: nat, n: nat, j: nat): int {
    if j <= w then rotations - w + j else rotations - w + j - n
  }

  function Pass(r: Run, j: nat): int {
    PassOf(r.rotations, r.sys.store.writeIdx, |r.turns|, j)
  }

  /** Some rotation, or the creation of the store, has reached file `j`. */
  predicate ReachedFile(r: Run, j: nat) {
    j <= r.sys.store.writeIdx || r.rotations >= |r.turns|
  }

  predicate Indexed(r: Run, i: nat) {
    i < |r.hist| && r.hist[i].meta in r.sys.index.entries
  }

  ghost predicate GensOrdered(hist: seq<Accepted>) {
    forall i, k :: 0 <= i < k < |hist| ==> hist[i].gen <= hist[k].gen
  }

  /** Live records are those of the pass their file is in. */
  ghost predicate LiveInPass(r: Run) {
    forall i :: 0 <= i < |r.hist| && Live(r, r.hist[i]) ==> r.hist[i].gen == Pass(r, r.hist[i].meta.loc.poolIdx)
  }

  ghost predicate SuffixIndexed(r: Run) {
    forall i: nat, k: nat :: i <= k < |r.hist| && Indexed(r, i) ==> Indexed(r, k)
  }

  /** It is known which pass each file is in. */
  ghost predicate Ring(r: Run) {
    Inv(r) && r.rotations >= r.sys.store.writeIdx && LiveInPass(r)
  }

  /** The oldest pass still in the ring. */
  function Oldest(r: Run): int {
    r.rotations - |r.turns| + 1
  }

  /** The index holds what was accepted during the last n passes, without the oldest of them if a request came
      that fits no file: `cut` is how much had been accepted when the last such request since the last rotation
      was served. */
  ghost predicate Remembers(r: Run, cut: Option<nat>) {
    && (cut.Some? ==> cut.value <= |r.hist|)
    && forall i: nat :: i < |r.hist| ==> (Indexed(r, i) <==> Remembered(r, cut, i))
  }

  predicate Remembered(r: Run, cut: Option<nat>, i: nat)
    requires i < |r.hist|
  {
    r.hist[i].gen >= Oldest(r) && (cut.Some? ==> r.hist[i].gen > Oldest(r) || i >= cut.value)
  }

  ghost predicate Accounted(r: Run) {
    exists cut :: Remembers(r, cut)
  }

  /** How `cut` develops over a run. */
  function Cut(r: Run, ops: seq<Op>): Option<nat>
    requires Valid(r.sys.store) && Sized(r)
  {
    if ops == [] then None
    else CutStep(RunAll(r, ops[..|ops| - 1]), Cut(r, ops[..|ops| - 1]), ops[|ops| - 1].req)
  }

  function CutStep(r: Run, cut: Option<nat>, q: Request): Option<nat>
    requires Valid(r.sys.store)
  {
    if RecordSize(q) > r.sys.store.capacity then Some(|r.hist|)
    else if Full(r.sys.store, RecordSize(q)) then None
    else cut
  }

  lemma IndexedIsLive(r: Run, i: nat)
    requires Inv(r) && Indexed(r, i)
    ensures Live(r, r.hist[i])
  {
  }

  lemma EvictedIndexed(r: Run, i: nat)
    requires Inv(r) && i < |r.hist|
    ensures Indexed(Evicted(r), i) <==> Indexed(r, i) && r.hist[i].meta.loc.poolIdx != NextIdx(r.sys.store)
  {
    hide KeyLe, LiveIntact, Placement, Inv;
    EvictedInv(r);
  }

  /** The next file holds the oldest pass, so evicting it takes the oldest entries and no others. */
  lemma NextIsOldest(r: Run, i: nat)
    requires Ring(r) && Indexed(r, i)
    ensures r.hist[i].gen >= Oldest(r)
    ensures r.hist[i].meta.loc.poolIdx == NextIdx(r.sys.store) <==> r.hist[i].gen == Oldest(r)
  {
    IndexedIsLive(r, i);
    InvIds(r);
    NextIdxCases(r.sys.store);
  }

  lemma EvictedRing(r: Run)
    requires Ring(r)
    ensures Ring(Evicted(r))
    ensures forall m :: m in Evicted(r).sys.index.entries ==> m.loc.poolIdx != NextIdx(r.sys.store)
    ensures forall i: nat :: i < |r.hist| && Indexed(Evicted(r), i) ==> Indexed(r, i)
    ensures forall cut :: Remembers(r, cut) ==> Remembers(Evicted(r), Some(|r.hist|))
  {
    InvIds(r);
    EvictedInv(r);
    var r' := Evicted(r);
    assert r'.hist == r.hist && LiveInPass(r');
    hide Inv, LiveInPass, Indexed, Live, Filter;
    forall i: nat | i < |r.hist|
      ensures Indexed(r', i) <==> Indexed(r, i) && r.hist[i].gen > Oldest(r)
    {
      EvictedIndexed(r, i);
      if Indexed(r, i) {
        NextIsOldest(r, i);
      }
    }
    forall cut | Remembers(r, cut) ensures Remembers(r', Some(|r.hist|)) {
      forall i: nat | i < |r.hist| ensures Indexed(r', i) <==> Remembered(r', Some(|r.hist|), i) {
        assert Indexed(r, i) <==> Remembered(r, cut, i);
      }
    }
  }

  lemma RotatedRing(r: Run, now: Instant, io: Io)
    requires Ring(r) && forall m :: m in r.sys.index.entries ==> m.loc.poolIdx != NextIdx(r.sys.store)
    ensures Ring(Rotated(r, now, io))
    ensures Remembers(r, Some(|r.hist|)) ==> Remembers(Rotated(r, now, io), None)
    ensures forall i: nat :: Indexed(Rotated(r, now, io), i) <==> Indexed(r, i)
  {
    hide PoolIdAfter, KeyLe, LiveIntact, IndexLive, PoolHeader;
    RotatedInv(r, now, io);
    NextIdxCases(r.sys.store);
    var r' := Rotated(r, now, io);
    forall i | 0 <= i < |r'.hist| && Live(r', r'.hist[i])
      ensures r'.hist[i].gen == Pass(r', r'.hist[i].meta.loc.poolIdx)
    {
      assert Placement(r, r.hist[i]);
      assert Live(r, r.hist[i]);
    }
    assert forall i: nat :: Indexed(r', i) <==> Indexed(r, i);
  }

  lemma RecordedIndexed(r: Run, q: Request, i: nat)
    requires Inv(r) && !Full(r.sys.store, RecordSize(q)) && i <= |r.hist|
    ensures Indexed(Recorded(r, q, Done), i) <==> i == |r.hist| || Indexed(r, i)
  {
    hide PoolIdAfter, KeyLe, LiveIntact, IndexLive, EncodeRecord, Placement, InsertBy;
    var r' := Recorded(r, q, Done);
    InsertMembers(r.sys.index.entries, r'.hist[|r.hist|].meta, KeyLe, r'.hist[i].meta);
  }

  lemma RecordedInPass(r: Run, q: Request, io: Io)
    requires Inv(r) && !Full(r.sys.store, RecordSize(q)) && LiveInPass(r)
    requires r.rotations >= r.sys.store.writeIdx
    ensures LiveInPass(Recorded(r, q, io))
  {
    hide PoolIdAfter, KeyLe, LiveIntact, IndexLive, EncodeRecord, Insert;
    var r' := Recorded(r, q, io);
    assert forall i :: 0 <= i < |r.hist| ==> r'.hist[i] == r.hist[i] && (Live(r', r.hist[i]) ==> Live(r, r.hist[i]));
  }

  lemma RecordedRing(r: Run, q: Request, io: Io)
    requires Ring(r) && !Full(r.sys.store, RecordSize(q))
    ensures Ring(Recorded(r, q, io))
    ensures Oldest(Recorded(r, q, io)) == Oldest(r)
    ensures forall cut :: Remembers(r, cut) ==> Remembers(Recorded(r, q, io), cut)
    ensures forall i: nat :: i < |r.hist| && Indexed(Recorded(r, q, io), i) ==> Indexed(r, i)
  {
    RecordedInv(r, q, io);
    RecordedInPass(r, q, io);
    hide LiveInPass, EncodeRecord, Insert;
    var r' := Recorded(r, q, io);
    if io.Done? {
      forall i: nat | i <= |r.hist| ensures Indexed(r', i) <==> i == |r.hist| || Indexed(r, i) {
        RecordedIndexed(r, q, i);
      }
    } else {
      assert forall i: nat :: Indexed(r', i) <==> Indexed(r, i);
    }
    hide Inv, Recorded, Indexed;
  }

  /** The request fits a file and neither write fails. */
  predicate Succeeds(capacity: nat, op: Op) {
    RecordSize(op.req) <= capacity && op.env.header.Done? && op.env.record.Done?
  }

  predicate AllSucceed(capacity: nat, ops: seq<Op>) {
    forall i :: 0 <= i < |ops| ==> Succeeds(capacity, ops[i])
  }

  lemma RingInv(r: Run)
    requires Ring(r)
    ensures Inv(r) && Valid(r.sys.store) && Sized(r)
  {
    InvIds(r);
  }

  lemma RunStepRing(r: Run, op: Op)
    requires Ring(r)
    ensures Ring(RunStep(r, op))
    ensures Valid(r.sys.store)
    ensures forall cut :: Remembers(r, cut) ==> Remembers(RunStep(r, op), CutStep(r, cut, op.req))
    ensures forall i: nat :: i < |r.hist| && Indexed(RunStep(r, op), i) ==> Indexed(r, i)
  {
    hide Ring, Inv, Remembers, Indexed, Evict, WriteRecord, Rotate, Insert, Valid;
    RingInv(r);
    EmptyAfterRotate(r.sys.store, op.env.now, op.env.header);
    var q := op.req;
    var full := Full(r.sys.store, RecordSize(q));
    var r1 := if full then Evicted(r) else r;
    if full {
      EvictedRing(r);
    }
    if RecordSize(q) <= r.sys.store.capacity {
      if full {
        RotatedRing(r1, op.env.now, op.env.header);
        if op.env.header.Done? {
          RecordedRing(Rotated(r1, op.env.now, op.env.header), q, op.env.record);
        }
      } else {
        RecordedRing(r, q, op.env.record);
      }
    }
  }

  /** The index as a part of the history. */
  ghost predicate IndexIsSuffix(r: Run) {
    && r.sys.index.counter == |r.hist|
    && SuffixIndexed(r)
    && (forall m :: m in r.sys.index.entries <==> exists i: nat :: Indexed(r, i) && m == r.hist[i].meta)
  }

  /** Stamps never fall behind those of what was accepted before, whatever the run started with. */
  lemma {:induction false} LaterGens(r: Run, ops: seq<Op>)
    requires Inv(r)
    ensures Valid(r.sys.store) && Sized(r)
    ensures forall i, k :: 0 <= i < k < |RunAll(r, ops).hist| && k >= |r.hist| ==>
              RunAll(r, ops).hist[i].gen <= RunAll(r, ops).hist[k].gen
  {
    hide Inv, RunStep, Valid, Sized;
    InvIds(r);
    if ops == [] {
    } else {
      var init, op := ops[..|ops| - 1], ops[|ops| - 1];
      LaterGens(r, init);
      RunAllInv(r, ops);
      GensBounded(RunAll(r, ops));
      StepStamps(RunAll(r, init), op);
      RunExtends(r, init);
    }
  }

  lemma GensBounded(r: Run)
    requires Inv(r)
    ensures forall i :: 0 <= i < |r.hist| ==> r.hist[i].gen <= r.rotations
  {
    hide PoolIdAfter;
    assert forall i :: 0 <= i < |r.hist| ==> Placement(r, r.hist[i]);
  }

  lemma StepStamps(r: Run, op: Op)
    requires Valid(r.sys.store) && Sized(r)
    ensures var r' := RunStep(r, op);
            r'.hist == r.hist
            || (|r'.hist| == |r.hist| + 1 && r'.hist[..|r.hist|] == r.hist
                && r'.hist[|r.hist|].gen == r'.rotations)
  {
    hide EncodeRecord, PoolHeader, Patch, Evict, Insert, Valid;
  }

  /** What was accepted later, and not in an earlier pass, is forgotten no earlier. */
  lemma RememberedLonger(r: Run, i: nat, k: nat)
    requires Accounted(r) && i <= k < |r.hist| && r.hist[i].gen <= r.hist[k].gen && Indexed(r, i)
    ensures Indexed(r, k)
  {
    hide Indexed;
    var cut :| Remembers(r, cut);
    assert Remembered(r, cut, i);
    assert Remembered(r, cut, k);
  }

  /** Where the stamps go up, the indexed ids are a suffix. */
  lemma RingSuffix(r: Run)
    requires Accounted(r) && GensOrdered(r.hist)
    ensures SuffixIndexed(r)
  {
    hide Indexed, Accounted;
    forall i: nat, k: nat | i <= k < |r.hist| && Indexed(r, i) ensures Indexed(r, k) {
      if i < k {
        RememberedLonger(r, i, k);
      }
    }
  }

  lemma RingIndexIsSuffix(r: Run)
    requires Ring(r) && Accounted(r) && GensOrdered(r.hist)
    ensures IndexIsSuffix(r)
  {
    RingSuffix(r);
    hide Ids, LiveIntact, Placement, Accounted, LiveInPass, GensOrdered, SuffixIndexed;
    forall m ensures m in r.sys.index.entries <==> exists i: nat :: Indexed(r, i) && m == r.hist[i].meta {
      if m in r.sys.index.entries {
        assert Indexed(r, m.id);
      }
    }
  }

  /** From a fresh start, over any run, oversized requests and failed writes included: the indexed ids are a
      suffix of the accepted ones, each with its own entry, and which ones they are is known exactly. */
  lemma IndexRefinesHistory(n: nat, capacity: nat, now: Instant, ops: seq<Op>)
    requires 0 < n < U64
    ensures var r := RunAll(Fresh(n, capacity, now), ops);
            IndexIsSuffix(r) && |r.turns| == n && Remembers(r, Cut(Fresh(n, capacity, now), ops))
  {
    hide IndexIsSuffix, Remembers, Ring, Fresh, RunAll, Inv;
    FreshRing(n, capacity, now);
    FreshStart(n, capacity, now);
    RunAllRing(Fresh(n, capacity, now), ops);
    LaterGens(Fresh(n, capacity, now), ops);
    RingIndexIsSuffix(RunAll(Fresh(n, capacity, now), ops));
  }

  /** The index is exactly what was accepted during the last n passes. */
  ghost predicate HoldsLastPasses(r: Run) {
    forall i: nat :: i < |r.hist| ==> (Indexed(r, i) <==> r.hist[i].gen + |r.turns| > r.rotations)
  }

  /** It is, if and only if no request too large for a file has come since the last rotation, or nothing was
      accepted in the oldest pass before the last such request. */
  lemma LastPassesIff(n: nat, capacity: nat, now: Instant, ops: seq<Op>)
    requires 0 < n < U64
    ensures var r, cut := RunAll(Fresh(n, capacity, now), ops), Cut(Fresh(n, capacity, now), ops);
            && (cut.Some? ==> cut.value <= |r.hist|)
            && (HoldsLastPasses(r) <==>
                cut.None? || forall i: nat :: i < cut.value ==> r.hist[i].gen != Oldest(r))
  {
    hide Fresh, RunAll, Cut, Indexed, IndexIsSuffix;
    IndexRefinesHistory(n, capacity, now, ops);
    var r, cut := RunAll(Fresh(n, capacity, now), ops), Cut(Fresh(n, capacity, now), ops);
    if HoldsLastPasses(r) && cut.Some? {
      forall i: nat | i < cut.value ensures r.hist[i].gen != Oldest(r) {
        assert Indexed(r, i) <==> Remembered(r, cut, i);
      }
    }
    if cut.None? || forall i: nat :: i < cut.value ==> r.hist[i].gen != Oldest(r) {
      forall i: nat | i < |r.hist| ensures Indexed(r, i) <==> r.hist[i].gen + |r.turns| > r.rotations {
        assert Indexed(r, i) <==> Remembered(r, cut, i);
      }
    }
  }

  /** Every request fits a file. */
  predicate AllFit(capacity: nat, ops: seq<Op>) {
    forall i :: 0 <= i < |ops| ==> RecordSize(ops[i].req) <= capacity
  }

  lemma {:induction false} NoCut(r: Run, ops: seq<Op>)
    requires Valid(r.sys.store) && Sized(r) && AllFit(r.sys.store.capacity, ops)
    ensures Cut(r, ops) == None
  {
    hide RunStep, RunAll, Valid, Sized;
    if ops == [] {
    } else {
      NoCut(r, ops[..|ops| - 1]);
      RunExtends(r, ops[..|ops| - 1]);
    }
  }

  /** So with requests that fit, failing writes or not, the index always is exactly the last n passes. */
  lemma FittingRunsHoldLastPasses(n: nat, capacity: nat, now: Instant, ops: seq<Op>)
    requires 0 < n < U64 && AllFit(capacity, ops)
    ensures HoldsLastPasses(RunAll(Fresh(n, capacity, now), ops))
  {
    FreshCapacity(n, capacity, now);
    hide Fresh, RunAll, HoldsLastPasses;
    NoCut(Fresh(n, capacity, now), ops);
    LastPassesIff(n, capacity, now, ops);
  }

  lemma FreshCapacity(n: nat, capacity: nat, now: Instant)
    requires 0 < n < U64
    ensures Fresh(n, capacity, now).sys.store.capacity == capacity
  {
  }

  lemma FreshRing(n: nat, capacity: nat, now: Instant)
    requires 0 < n < U64
    ensures Ring(Fresh(n, capacity, now)) && Remembers(Fresh(n, capacity, now), None)
  {
    hide FreshStore, Inv, Start;
    FreshStart(n, capacity, now);
    FreshFiles(n, capacity, now, 0);
    StartShape(FreshStore(n, capacity, now), now);
    var r := Fresh(n, capacity, now);
    assert r.sys.store == FreshStore(n, capacity, now);
    hide Fresh;
  }

  lemma {:induction false} RunAllRing(r: Run, ops: seq<Op>)
    requires Ring(r)
    ensures Valid(r.sys.store) && Sized(r) && Ring(RunAll(r, ops))
    ensures Remembers(r, None) ==> Remembers(RunAll(r, ops), Cut(r, ops))
    ensures Accounted(r) ==> Accounted(RunAll(r, ops))
    ensures forall i: nat :: i < |r.hist| && Indexed(RunAll(r, ops), i) ==> Indexed(r, i)
  {
    hide Ring, RunStep, Remembers, Indexed, Inv, CutStep, Valid, Sized;
    RingInv(r);
    if ops == [] {
    } else {
      var init := ops[..|ops| - 1];
      RunAllRing(r, init);
      RunExtends(r, init);
      RunStepRing(RunAll(r, init), ops[|ops| - 1]);
    }
  }

  lemma StepStays(r: Run, op: Op)
    requires Valid(r.sys.store) && Sized(r) && Succeeds(r.sys.store.capacity, op)
    requires !Full(r.sys.store, RecordSize(op.req))
    ensures var s, r' := r.sys.store, RunStep(r, op);
            && r'.rotations == r.rotations && r'.turns == r.turns && |r'.hist| == |r.hist| + 1
            && r'.hist[..|r.hist|] == r.hist && r'.hist[|r.hist|].gen == r.rotations
            && r'.hist[|r.hist|].meta.loc.poolIdx == s.writeIdx && r'.hist[|r.hist|].turn == r.turns[s.writeIdx]
            && r'.sys.store.writeIdx == s.writeIdx && r'.sys.store.capacity == s.capacity
            && |r'.sys.store.slots| == |s.slots|
            && r'.sys.store.slots[s.writeIdx].used == s.slots[s.writeIdx].used + RecordSize(op.req)
  {
    hide EncodeRecord, Patch, Insert;
  }

  lemma StepTurns(r: Run, op: Op)
    requires Valid(r.sys.store) && Sized(r) && Succeeds(r.sys.store.capacity, op)
    requires Full(r.sys.store, RecordSize(op.req))
    ensures var j, r' := NextIdx(r.sys.store), RunStep(r, op);
            && r'.rotations == r.rotations + 1 && r'.turns == r.turns[j := r.turns[j] + 1] && |r'.hist| == |r.hist| + 1
            && r'.hist[..|r.hist|] == r.hist && r'.hist[|r.hist|].gen == r.rotations + 1
            && r'.hist[|r.hist|].meta.loc.poolIdx == j && r'.hist[|r.hist|].turn == r'.turns[j]
            && r'.sys.store.writeIdx == j && r'.sys.store.capacity == r.sys.store.capacity
            && |r'.sys.store.slots| == |r.sys.store.slots|
  {
    hide EncodeRecord, PoolHeader, Patch, Insert, Evict, NextIdx;
  }

  lemma StepRefuses(r: Run, op: Op)
    requires Valid(r.sys.store) && Sized(r) && RecordSize(op.req) > r.sys.store.capacity
    ensures RunStep(r, op) == Evicted(r)
  {
  }

  lemma RunThree(r: Run, ops: seq<Op>)
    requires Valid(r.sys.store) && Sized(r) && |ops| == 3
    ensures RunAll(r, ops) == RunStep(RunStep(RunStep(r, ops[0]), ops[1]), ops[2])
    ensures Cut(r, ops) == CutStep(RunStep(RunStep(r, ops[0]), ops[1]), Cut(r, ops[..2]), ops[2].req)
  {
    hide RunStep, CutStep, Valid, Sized;
    assert ops[..2][..1] == ops[..1] && ops[..1][..0] == [];
    assert RunAll(r, ops[..1]) == RunStep(r, ops[0]);
  }

  lemma FreshShape(n: nat, capacity: nat, now: Instant)
    requires 0 < n < U64
    ensures var r := Fresh(n, capacity, now);
            && r.hist == [] && r.rotations == 0 && r.sys.store.writeIdx == 0 && r.sys.store.slots[0].used == 0
            && r.sys.store.capacity == capacity && |r.turns| == |r.sys.store.slots| == n
  {
    hide Valid, ScanAll, Rebuild, FreshStore, Inv, UsedIsLog, FileScan, ReadPoolId, UsedAsScanned;
    FreshStart(n, capacity, now);
    FreshFiles(n, capacity, now, 0);
  }

  /** A run that loses records early: two files of one record's size each, both written, then a request one
      byte too large. The record in file 0 is forgotten, though nothing has been written over it and it belongs
      to the last two passes. */
  lemma OversizedForgets(now: Instant, ops: seq<Op>)
    requires |ops| == 3 && (forall k :: 0 <= k < 3 ==> ops[k].env == Env(now, Done, Done))
    requires |ops[0].req.data| == |ops[1].req.data| == 8 && |ops[2].req.data| == 9
    ensures var r := RunAll(Fresh(2, 48, now), ops);
            && |r.hist| == 2 && r.hist[0].gen + 2 > r.rotations && Live(r, r.hist[0])
            && !Indexed(r, 0) && Indexed(r, 1)
  {
    hide Fresh, RunStep, RunAll, Cut, Indexed, IndexIsSuffix, Valid;
    var r0 := Fresh(2, 48, now);
    FreshShape(2, 48, now);
    var r1 := RunStep(r0, ops[0]);
    var r2 := RunStep(r1, ops[1]);
    StepStays(r0, ops[0]);
    StepTurns(r1, ops[1]);
    StepRefuses(r2, ops[2]);
    RunThree(r0, ops);
    IndexRefinesHistory(2, 48, now, ops);
    var r := Evicted(r2);
    assert r.hist[0] == r1.hist[0];
    assert Indexed(r, 0) <==> Remembered(r, Some(2), 0);
    assert Indexed(r, 1) <==> Remembered(r, Some(2), 1);
  }
}
