/** The ring of pool files as a value: what open, append, rotate and read do to the slots and to the bytes
    on disk. `ChunkPool.ChunkPool` is the imperative form, proved against these functions. */
module PoolModel {
  import opened Bytes
  import opened RecordFormat
  import opened PoolScan

  /** How a sequential write to a file ended: a failed one leaves a prefix of its bytes behind. */
  datatype Io = Done | Failed(wrote: nat)

  /** `rotate` looks at the reader counter of the next file at most this often after the first look. */
  const MAX_POLLS: nat := 50

  function Written(data: seq<byte>, io: Io): (r: seq<byte>)
    ensures |r| <= |data| && (io.Done? ==> r == data)
  {
    if io.Done? || io.wrote >= |data| then data else data[..io.wrote]
  }

  /** What the outside world answers during one append: the clock and the fate of its two writes. */
  datatype Env = Env(now: Instant, header: Io, record: Io)

  datatype Slot = Slot(poolId: nat, used: nat)
  datatype Store = Store(capacity: nat, slots: seq<Slot>, writeIdx: nat, files: seq<seq<byte>>)

  datatype Loc = Loc(poolIdx: nat, poolId: nat, offset: nat, size: nat)
  datatype AppendError = TooLarge | HeaderFailed | RecordFailed
  datatype Outcome = Placed(loc: Loc) | Refused(error: AppendError)

  ghost predicate Valid(s: Store) {
    && 0 <= s.writeIdx < |s.slots| == |s.files|
    && (forall j {:trigger s.slots[j]} {:trigger s.files[j]} :: 0 <= j < |s.slots| ==>
          s.slots[j].used <= s.capacity && s.slots[j].poolId < U64 && |s.files[j]| == POOL_HEADER + s.capacity)
  }

  function RecordSize(q: Request): nat {
    RECORD_HEADER + |q.data|
  }

  predicate Full(s: Store, size: nat)
    requires s.writeIdx < |s.slots|
  {
    s.slots[s.writeIdx].used + size > s.capacity
  }

  function NextIdx(s: Store): (j: nat)
    requires |s.slots| > 0
    ensures j < |s.slots|
  {
    (s.writeIdx + 1) % |s.slots|
  }

  lemma NextIdxCases(s: Store)
    requires 0 <= s.writeIdx < |s.slots|
    ensures NextIdx(s) == if s.writeIdx + 1 == |s.slots| then 0 else s.writeIdx + 1
  {
  }

  /** Moving on to the next file: a new id, nothing used, old bytes left in place below a new header. */
  function Rotate(s: Store, now: Instant, io: Io): (r: Store)
    requires Valid(s)
    ensures Valid(r)
  {
    var j := NextIdx(s);
    var id := (s.slots[j].poolId + |s.slots|) % U64;
    s.(writeIdx := j, slots := s.slots[j := Slot(id, 0)],
       files := s.files[j := Patch(s.files[j], 0, Written(PoolHeader(id, now), io))])
  }

  lemma EmptyAfterRotate(s: Store, now: Instant, io: Io)
    requires Valid(s)
    ensures var s' := Rotate(s, now, io);
            s'.capacity == s.capacity && forall size: nat :: size <= s.capacity ==> !Full(s', size)
  {
  }

  /** A rotation turns to the file behind the current one, gives it the id n higher, counts nothing in it as used
      and writes its 64-byte header, or a beginning of it, over the old one; all other bytes stay. */
  lemma RotateOutcome(s: Store, now: Instant, io: Io)
    requires Valid(s)
    ensures var (s', j) := (Rotate(s, now, io), if s.writeIdx + 1 == |s.slots| then 0 else s.writeIdx + 1);
            && s'.writeIdx == j && |s'.slots| == |s.slots| == |s'.files| && s'.capacity == s.capacity
            && s'.slots[j].used == 0 && s'.slots[j].poolId == (s.slots[j].poolId + |s.slots|) % U64
            && (forall k :: 0 <= k < |s.slots| && k != j ==> s'.slots[k] == s.slots[k] && s'.files[k] == s.files[k])
            && exists n: nat :: (io.Done? ==> n == 64)
                 && HeaderOver(s.files[j], s'.files[j], s'.slots[j].poolId, now, n)
  {
    hide PoolHeader;
    NextIdxCases(s);
    var j := NextIdx(s);
    var written := Written(PoolHeader((s.slots[j].poolId + |s.slots|) % U64, now), io);
    assert HeaderOver(s.files[j], Rotate(s, now, io).files[j], (s.slots[j].poolId + |s.slots|) % U64, now, |written|);
  }

  /** The first `n` bytes of `f` are those of a header, the others as before. */
  ghost predicate HeaderOver(before: seq<byte>, f: seq<byte>, id: nat, now: Instant, n: nat) {
    && |f| == |before| && n <= 64 <= |f|
    && forall i :: 0 <= i < |f| ==> f[i] == if i < n then PoolHeader(id, now)[i] else before[i]
  }

  function WriteRecord(s: Store, q: Request, io: Io): (r: (Store, Outcome))
    requires Valid(s) && !Full(s, RecordSize(q))
    ensures Valid(r.0)
  {
    var w := s.writeIdx;
    var slot := s.slots[w];
    var at := POOL_HEADER + slot.used;
    var files := s.files[w := Patch(s.files[w], at, Written(EncodeRecord(q), io))];
    if io.Done? then
      (s.(files := files, slots := s.slots[w := slot.(used := slot.used + RecordSize(q))]),
       Placed(Loc(w, slot.poolId, at, RecordSize(q))))
    else
      (s.(files := files), Refused(RecordFailed))
  }

  /** The append will leave the current file. */
  predicate Rotates(s: Store, q: Request)
    requires s.writeIdx < |s.slots|
  {
    RecordSize(q) <= s.capacity && Full(s, RecordSize(q))
  }

  function Append(s: Store, q: Request, env: Env): (r: (Store, Outcome))
    requires Valid(s)
    ensures Valid(r.0)
  {
    if RecordSize(q) > s.capacity then (s, Refused(TooLarge))
    else if Full(s, RecordSize(q)) then
      var s1 := Rotate(s, env.now, env.header);
      if env.header.Failed? then (s1, Refused(HeaderFailed)) else WriteRecord(s1, q, env.record)
    else WriteRecord(s, q, env.record)
  }

  /** How an append ends: which refusal comes when, that a refused request leaves no slot longer, and that an
      accepted one reads back from the place given, of which no other file knows anything. */
  lemma AppendOutcome(s: Store, q: Request, env: Env)
    requires Valid(s)
    ensures var (s', out) := Append(s, q, env);
            var fits, full := RecordSize(q) <= s.capacity, s.slots[s.writeIdx].used + RecordSize(q) > s.capacity;
            && (out == Refused(TooLarge) <==> !fits)
            && (out == Refused(HeaderFailed) <==> fits && full && env.header.Failed?)
            && (out == Refused(RecordFailed) <==> fits && !(full && env.header.Failed?) && env.record.Failed?)
            && |s'.slots| == |s.slots| && s'.writeIdx == (if fits && full then NextIdx(s) else s.writeIdx)
            && (forall j :: 0 <= j < |s.slots| && j != s'.writeIdx ==>
                  s'.slots[j] == s.slots[j] && s'.files[j] == s.files[j])
            && (out.Refused? ==> s'.slots[s'.writeIdx].used <= s.slots[s'.writeIdx].used)
            && (!fits ==> s' == s)
            && (out.Placed? ==>
                  && out.loc.poolIdx == s'.writeIdx && out.loc.poolId == s'.slots[s'.writeIdx].poolId
                  && out.loc.offset + out.loc.size == POOL_HEADER + s'.slots[s'.writeIdx].used
                  && Addressable(s', out.loc) && ReadSegment(s', out.loc) == Some(q.data))
  {
    hide EncodeHeader, PoolHeader;
    if RecordSize(q) <= s.capacity {
      var b := if Full(s, RecordSize(q)) then Rotate(s, env.now, env.header) else s;
      var at, raw := POOL_HEADER + b.slots[b.writeIdx].used, EncodeRecord(q);
      PatchRange(b.files[b.writeIdx], at, raw, at, at + |raw|);
      var f := Patch(b.files[b.writeIdx], at, raw);
      assert f[at + RECORD_HEADER..at + |raw|] == f[at..at + |raw|][RECORD_HEADER..];
      hide Patch, EncodeRecord;
    }
  }

  /** A location the store can be asked about: reading outside the file is an error, not a crash. */
  predicate Addressable(s: Store, loc: Loc) {
    loc.poolIdx < |s.files| && loc.size >= RECORD_HEADER
  }

  /** The payload at a location; the pool id in it is not looked at. */
  function ReadSegment(s: Store, loc: Loc): Option<seq<byte>>
    requires Addressable(s, loc)
  {
    var f := s.files[loc.poolIdx];
    if loc.offset + loc.size <= |f| then Some(f[loc.offset + RECORD_HEADER..loc.offset + loc.size]) else None
  }

  // ---- opening ----

  /** The pool files found on disk: `None` where a file does not exist yet. */
  type Disk = seq<Option<seq<byte>>>

  ghost predicate FullLength(disk: Disk, capacity: nat) {
    forall i :: 0 <= i < |disk| && disk[i].Some? ==> |disk[i].value| == POOL_HEADER + capacity
  }

  function OpenedSlot(disk: Disk, i: nat, now: Instant): (slot: Slot)
    requires i < |disk| && (disk[i].Some? ==> |disk[i].value| >= POOL_HEADER)
  {
    if disk[i].None? then Slot(i, 0)
    else
      var id := ReadPoolId(disk[i].value);
      Slot(id, TotalSize(ScanFrom(disk[i].value, Origin(i, id, now), POOL_HEADER)))
  }

  function OpenedFile(disk: Disk, i: nat, capacity: nat): seq<byte>
    requires i < |disk|
  {
    if disk[i].None? then Zeros(POOL_HEADER + capacity) else disk[i].value
  }

  /** The last file, among the first `k`, whose id no other file exceeds. */
  function Latest(disk: Disk, k: nat): (best: Option<nat>)
    requires k <= |disk| && forall i :: 0 <= i < k && disk[i].Some? ==> |disk[i].value| >= POOL_HEADER
    ensures best.Some? <==> exists i :: 0 <= i < k && disk[i].Some?
    ensures best.Some? ==> best.value < k && disk[best.value].Some?
    ensures best.Some? ==> forall i :: 0 <= i < k && disk[i].Some? ==>
              ReadPoolId(disk[i].value) <= ReadPoolId(disk[best.value].value)
              && (i > best.value ==> ReadPoolId(disk[i].value) < ReadPoolId(disk[best.value].value))
  {
    if k == 0 then None
    else
      var best := Latest(disk, k - 1);
      if disk[k - 1].Some?
         && (best.None? || ReadPoolId(disk[k - 1].value) >= ReadPoolId(disk[best.value].value))
      then Some(k - 1) else best
  }

  /** The store as `open` builds it in memory. */
  function OpenedSlots(disk: Disk, capacity: nat, now: Instant): (s: Store)
    requires |disk| > 0 && FullLength(disk, capacity)
    ensures |s.slots| == |s.files| == |disk| && s.capacity == capacity
  {
    var best := Latest(disk, |disk|);
    Store(capacity,
          seq(|disk|, i requires 0 <= i < |disk| => OpenedSlot(disk, i, now)),
          if best.Some? then best.value else 0,
          seq(|disk|, i requires 0 <= i < |disk| => OpenedFile(disk, i, capacity)))
  }

  /** `open`: on an empty disk it also writes the header of file 0, the one write that can fail. */
  function Open(disk: Disk, capacity: nat, env: Env): (r: Option<Store>)
    requires |disk| > 0 && FullLength(disk, capacity)
  {
    var s := OpenedSlots(disk, capacity, env.now);
    if Latest(disk, |disk|).Some? then Some(s)
    else if env.header.Failed? then None
    else Some(s.(files := s.files[0 := Patch(s.files[0], 0, PoolHeader(s.slots[0].poolId, env.now))]))
  }

  /** What opening makes of any mixture of present and missing files. */
  lemma OpenedStore(disk: Disk, capacity: nat, env: Env)
    requires |disk| > 0 && FullLength(disk, capacity)
    ensures Open(disk, capacity, env).None? <==> env.header.Failed? && forall i :: 0 <= i < |disk| ==> disk[i].None?
    ensures var found := Open(disk, capacity, env);
            found.Some? ==>
              var s := found.value;
              && s.capacity == capacity && |s.slots| == |s.files| == |disk| && s.writeIdx < |disk|
              && (forall i :: 0 <= i < |disk| ==>
                    if disk[i].Some? then
                      && s.files[i] == disk[i].value && s.slots[i].poolId == ReadPoolId(disk[i].value)
                      && s.slots[i].used == TotalSize(ScanFrom(s.files[i], Origin(i, s.slots[i].poolId, env.now), 64))
                      && ReadPoolId(disk[i].value) <= s.slots[s.writeIdx].poolId
                    else
                      && s.slots[i] == Slot(i, 0)
                      && if i > 0 || disk[s.writeIdx].Some? then s.files[i] == Zeros(64 + capacity)
                         else HeaderOver(Zeros(64 + capacity), s.files[i], 0, env.now, 64))
              && (disk[s.writeIdx].None? ==> s.writeIdx == 0 && forall i :: 0 <= i < |disk| ==> disk[i].None?)
  {
    hide ScanFrom, ReadPoolId, PoolHeader;
  }

  lemma OpenValid(disk: Disk, capacity: nat, env: Env)
    requires 0 < |disk| < U64 && FullLength(disk, capacity)
    ensures Open(disk, capacity, env).Some? ==> Valid(Open(disk, capacity, env).value)
  {
    var s := OpenedSlots(disk, capacity, env.now);
    forall j | 0 <= j < |disk|
      ensures s.slots[j].used <= capacity && s.slots[j].poolId < U64 && |s.files[j]| == POOL_HEADER + capacity
    {
      if disk[j].Some? {
        ScanTiles(disk[j].value, Origin(j, s.slots[j].poolId, env.now), POOL_HEADER);
      }
    }
  }
}
