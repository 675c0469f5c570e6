/** The writer and any number of readers around the shared store, as a transition system: two read-write locks,
    one reader counter per file, and byte-by-byte file writes and reads that may interleave in any way the
    locks allow. `run` is an auxiliary variable: the atomic writer model of `WriterModel`, advanced by one whole
    iteration whenever the writer gets back to its receive loop. */
module Protocol {
  import opened Bytes
  import opened RecordFormat
  import opened PoolModel
  import opened IndexModel
  import opened Sorting
  import opened WriterModel
  import opened StaleReads

  datatype Lock = Lock(writer: bool, readers: set<nat>)

  /** Where the writer is. `done` counts the bytes of the current write that have reached the file. */
  datatype Pc =
    | Idle
    | Checked(q: Request, full: bool)
    | Evicting(q: Request)                              // index write lock
    | Ready(q: Request)
    | Appending(q: Request)                             // pool write lock, from here ...
    | Waiting(q: Request, polls: nat)
    | HeaderOut(q: Request, now: Instant, done: nat)
    | RecordOut(q: Request, now: Instant, done: nat)    // ... to here
    | Written(q: Request, now: Instant, loc: Loc)
    | Inserting(q: Request, now: Instant, loc: Loc)     // index write lock

  /** An export (X...) or a single-segment request (S...) and where it is. */
  datatype Reader =
    | XStart(camera: seq<byte>, from: Instant, to: Instant)
    | XQuery(camera: seq<byte>, from: Instant, to: Instant, todo: set<nat>, guards: set<nat>)  // index read lock
    | XGuarded(camera: seq<byte>, from: Instant, to: Instant, guards: set<nat>)
    | XReading(camera: seq<byte>, from: Instant, to: Instant, guards: set<nat>,
               segs: seq<Meta>, outs: seq<seq<byte>>, part: seq<byte>)                            // index read lock
    | XDropping(camera: seq<byte>, from: Instant, to: Instant, guards: set<nat>,
                segs: seq<Meta>, outs: seq<seq<byte>>, failed: bool)
    | SStart(camera: seq<byte>, segId: nat)
    | SMissing(camera: seq<byte>, segId: nat)
    | SFound(camera: seq<byte>, segId: nat, meta: Meta)
    | SLocked(camera: seq<byte>, segId: nat, meta: Meta)                 // pool read lock, from here ...
    | SGuarded(camera: seq<byte>, segId: nat, meta: Meta)
    | SRead(camera: seq<byte>, segId: nat, meta: Meta, seen: Seen)
    | SReleased(camera: seq<byte>, segId: nat, meta: Meta, seen: Seen)   // ... to here
    | SDone(camera: seq<byte>, segId: nat, meta: Meta, seen: Seen)

  /** What a segment request read, whether the file still carried the location's id, and whether no later pass had
      put other bytes over the payload. */
  datatype Seen = Seen(data: Option<seq<byte>>, same: bool, intact: bool)

  datatype Conc = Conc(run: Run, store: Store, index: Index, pc: Pc,
                       readers: map<nat, Reader>, counters: seq<nat>, indexLock: Lock, poolLock: Lock)

  predicate HoldsIndex(x: Reader) {
    x.XQuery? || x.XReading?
  }

  predicate HoldsPool(x: Reader) {
    x.SLocked? || x.SGuarded? || x.SRead? || x.SReleased?
  }

  /** The files a reader holds a counter on. */
  function GuardsOf(x: Reader): set<nat> {
    match x
    case XQuery(_, _, _, _, guards) => guards
    case XGuarded(_, _, _, guards) => guards
    case XReading(_, _, _, guards, _, _, _) => guards
    case XDropping(_, _, _, guards, _, _, _) => guards
    case SGuarded(_, _, meta) => {meta.loc.poolIdx}
    case SRead(_, _, meta, _) => {meta.loc.poolIdx}
    case _ => {}
  }

  predicate WriterHoldsIndex(pc: Pc) {
    pc.Evicting? || pc.Inserting?
  }

  predicate WriterHoldsPool(pc: Pc) {
    pc.Appending? || pc.Waiting? || pc.HeaderOut? || pc.RecordOut?
  }

  predicate Free(lock: Lock) {
    !lock.writer && lock.readers == {}
  }

  // ---- the writer's steps ----

  datatype WriterAct =
    | Receive(q: Request)
    | TakeIndex                     // to evict, or to insert
    | Evict
    | SkipEvict
    | TakePool
    | BeginAppend(now: Instant)
    | Poll(now: Instant)
    | HeaderBytes(upTo: nat)
    | HeaderFails
    | RecordBytes(upTo: nat)
    | RecordFails
    | FinishAppend
    | Insert

  /** Before the append: evicted if the current file is full. */
  ghost function Prepared(r: Run, q: Request): (r': Run)
    requires Valid(r.sys.store) && Sized(r)
    ensures Valid(r'.sys.store) && Sized(r')
  {
    if Full(r.sys.store, RecordSize(q)) then Evicted(r) else r
  }

  /** Just before the record's own bytes: evicted and rotated if the current file is full. */
  ghost function BaseStore(s: Store, q: Request, now: Instant): (s': Store)
    requires Valid(s) && RecordSize(q) <= s.capacity
    ensures Valid(s') && !Full(s', RecordSize(q)) && s'.capacity == s.capacity
  {
    if Full(s, RecordSize(q)) then Rotate(s, now, Done) else s
  }

  ghost function Base(r: Run, q: Request, now: Instant): (r': Run)
    requires Valid(r.sys.store) && Sized(r) && RecordSize(q) <= r.sys.store.capacity
    ensures Valid(r'.sys.store) && Sized(r') && !Full(r'.sys.store, RecordSize(q))
    ensures r'.sys.store.capacity == r.sys.store.capacity
  {
    if Full(r.sys.store, RecordSize(q)) then Rotated(Evicted(r), now, Done) else r
  }

  ghost predicate WriterEnabled(s: Conc, a: WriterAct) {
    match a
    case Receive(_) => s.pc.Idle? && !s.poolLock.writer
    case TakeIndex => ((s.pc.Checked? && s.pc.full) || s.pc.Written?) && Free(s.indexLock)
    case Evict => s.pc.Evicting?
    case SkipEvict => s.pc.Checked? && !s.pc.full
    case TakePool => s.pc.Ready? && Free(s.poolLock)
    case BeginAppend(_) => s.pc.Appending?
    case Poll(_) => s.pc.Waiting?
    case HeaderBytes(k) => s.pc.HeaderOut? && s.pc.done < k <= POOL_HEADER
    case HeaderFails => s.pc.HeaderOut?
    case RecordBytes(k) => s.pc.RecordOut? && s.pc.done < k <= RecordSize(s.pc.q)
    case RecordFails => s.pc.RecordOut?
    case FinishAppend => s.pc.RecordOut? && s.pc.done == RecordSize(s.pc.q)
    case Insert => s.pc.Inserting?
  }

  /** Needed for the steps below to make sense; implied by the invariant. */
  ghost predicate Shape(s: Conc) {
    Valid(s.store) && Valid(s.run.sys.store) && Sized(s.run) && |s.counters| == |s.store.slots| > 0
    && (s.pc.HeaderOut? ==> s.pc.done <= POOL_HEADER)
    && (s.pc.RecordOut? ==> s.pc.done <= RecordSize(s.pc.q) && !Full(s.store, RecordSize(s.pc.q)))
  }

  /** The bytes of `data` from `from` on up to `upTo` reach file `j` at `at + from`. */
  function Push(s: Store, j: nat, at: nat, data: seq<byte>, from: nat, upTo: nat): Store
    requires j < |s.files| && from <= upTo <= |data| && at + |data| <= |s.files[j]|
  {
    s.(files := s.files[j := Patch(s.files[j], at + from, data[from..upTo])])
  }

  /** The iteration is over: lock released, and the atomic model takes its step. */
  ghost function Finish(s: Conc, op: Op): Conc
    requires Shape(s)
  {
    s.(pc := Idle, run := RunStep(s.run, op))
  }

  ghost function Unlocked(s: Conc): Conc {
    s.(poolLock := s.poolLock.(writer := false))
  }

  ghost function WriterStep(s: Conc, a: WriterAct): Conc
    requires Shape(s) && WriterEnabled(s, a)
  {
    var w := s.store.writeIdx;
    match a
    case Receive(q) => s.(pc := Checked(q, Full(s.store, RecordSize(q))))
    case TakeIndex =>
      s.(pc := if s.pc.Checked? then Evicting(s.pc.q) else Inserting(s.pc.q, s.pc.now, s.pc.loc),
         indexLock := s.indexLock.(writer := true))
    case Evict =>
      s.(pc := Ready(s.pc.q), index := IndexModel.Evict(s.index, NextIdx(s.store)),
         indexLock := s.indexLock.(writer := false))
    case SkipEvict => s.(pc := Ready(s.pc.q))
    case TakePool => s.(pc := Appending(s.pc.q), poolLock := s.poolLock.(writer := true))
    case BeginAppend(now) =>
      if RecordSize(s.pc.q) > s.store.capacity then Finish(Unlocked(s), Op(s.pc.q, Env(now, Done, Done)))
      else if Full(s.store, RecordSize(s.pc.q)) then
        s.(pc := Waiting(s.pc.q, 0), store := s.store.(writeIdx := NextIdx(s.store)))
      else s.(pc := RecordOut(s.pc.q, now, 0))
    case Poll(now) =>
      if s.counters[w] > 0 && s.pc.polls < MAX_POLLS then s.(pc := Waiting(s.pc.q, s.pc.polls + 1))
      else
        s.(pc := HeaderOut(s.pc.q, now, 0),
           store := s.store.(slots := s.store.slots[w := Slot((s.store.slots[w].poolId + |s.store.slots|) % U64, 0)]))
    case HeaderBytes(k) =>
      s.(store := Push(s.store, w, 0, PoolHeader(s.store.slots[w].poolId, s.pc.now), s.pc.done, k),
         pc := if k < POOL_HEADER then HeaderOut(s.pc.q, s.pc.now, k) else RecordOut(s.pc.q, s.pc.now, 0))
    case HeaderFails => Finish(Unlocked(s), Op(s.pc.q, Env(s.pc.now, Failed(s.pc.done), Done)))
    case RecordBytes(k) =>
      s.(store := Push(s.store, w, POOL_HEADER + s.store.slots[w].used, EncodeRecord(s.pc.q), s.pc.done, k),
         pc := RecordOut(s.pc.q, s.pc.now, k))
    case RecordFails => Finish(Unlocked(s), Op(s.pc.q, Env(s.pc.now, Done, Failed(s.pc.done))))
    case FinishAppend =>
      var slot := s.store.slots[w];
      s.(store := s.store.(slots := s.store.slots[w := slot.(used := slot.used + RecordSize(s.pc.q))]),
         pc := Written(s.pc.q, s.pc.now, Loc(w, slot.poolId, POOL_HEADER + slot.used, RecordSize(s.pc.q))),
         poolLock := s.poolLock.(writer := false))
    case Insert =>
      Finish(s.(index := IndexModel.Insert(s.index, s.pc.q.camera, s.pc.q.start, s.pc.q.end, s.pc.loc),
                indexLock := s.indexLock.(writer := false)),
             Op(s.pc.q, Env(s.pc.now, Done, Done)))
  }

  // ---- the shared store at every point of the writer ----

  /** What store and index are, in terms of the atomic model: a write under way has left the files as a write
      that failed right there would. */
  ghost predicate CoreAt(s: Conc)
    requires Valid(s.run.sys.store) && Sized(s.run)
  {
    var r, st := s.run, s.run.sys.store;
    match s.pc
    case Idle => s.store == st && s.index == r.sys.index
    case Checked(q, full) => s.store == st && s.index == r.sys.index && full == Full(st, RecordSize(q))
    case Evicting(q) => s.store == st && s.index == r.sys.index && Full(st, RecordSize(q))
    case Ready(q) => s.store == st && s.index == Prepared(r, q).sys.index
    case Appending(q) => s.store == st && s.index == Prepared(r, q).sys.index
    case Waiting(q, polls) =>
      Rotates(st, q) && polls <= MAX_POLLS
      && s.store == st.(writeIdx := NextIdx(st)) && s.index == Prepared(r, q).sys.index
    case HeaderOut(q, now, done) =>
      Rotates(st, q) && done < POOL_HEADER
      && s.store == Rotate(st, now, Failed(done)) && s.index == Prepared(r, q).sys.index
    case RecordOut(q, now, done) =>
      RecordSize(q) <= st.capacity && done <= RecordSize(q)
      && s.store == WriteRecord(BaseStore(st, q, now), q, Failed(done)).0 && s.index == Prepared(r, q).sys.index
    case Written(q, now, loc) =>
      RecordSize(q) <= st.capacity
      && s.store == WriteRecord(BaseStore(st, q, now), q, Done).0
      && Placed(loc) == WriteRecord(BaseStore(st, q, now), q, Done).1 && s.index == Prepared(r, q).sys.index
    case Inserting(q, now, loc) =>
      RecordSize(q) <= st.capacity
      && s.store == WriteRecord(BaseStore(st, q, now), q, Done).0
      && Placed(loc) == WriteRecord(BaseStore(st, q, now), q, Done).1 && s.index == Prepared(r, q).sys.index
  }

  ghost predicate Core(s: Conc) {
    Inv(s.run) && Valid(s.run.sys.store) && Sized(s.run) && |s.counters| == |s.run.turns| && CoreAt(s)
  }

  /** The atomic model's state the shared data belongs to. */
  ghost function Mid(s: Conc): (m: Run)
    requires Core(s)
    ensures Valid(m.sys.store) && Sized(m)
  {
    var r := s.run;
    match s.pc
    case Idle => r
    case Checked(_, _) => r
    case Evicting(_) => r
    case Ready(q) => Prepared(r, q)
    case Appending(q) => Prepared(r, q)
    case Waiting(q, _) => Prepared(r, q)
    case HeaderOut(q, now, done) => Rotated(Prepared(r, q), now, Failed(done))
    case RecordOut(q, now, done) => Recorded(Base(r, q, now), q, Failed(done))
    case Written(q, now, _) => Recorded(Base(r, q, now), q, Done)
    case Inserting(q, now, _) => Recorded(Base(r, q, now), q, Done)
  }

  // ---- the writer's steps keep the shared store in step with the atomic model ----

  lemma WrittenSoFar(data: seq<byte>, k: nat)
    requires k <= |data|
    ensures PoolModel.Written(data, Failed(k)) == data[..k]
  {
  }

  lemma PatchNothing(f: seq<byte>, at: nat, data: seq<byte>)
    requires at + |data| <= |f|
    ensures Patch(f, at, PoolModel.Written(data, Failed(0))) == f
  {
    WrittenSoFar(data, 0);
  }

  /** A record write extended by some bytes is a longer failed write. */
  lemma RecordGrows(b: Store, q: Request, k: nat, m: nat)
    requires Valid(b) && !Full(b, RecordSize(q)) && k <= m <= RecordSize(q)
    ensures var s := WriteRecord(b, q, Failed(k)).0;
            var at := POOL_HEADER + s.slots[s.writeIdx].used;
            && s.writeIdx == b.writeIdx && at == POOL_HEADER + b.slots[b.writeIdx].used
            && |EncodeRecord(q)| == RecordSize(q) && at + RecordSize(q) <= |s.files[s.writeIdx]|
            && Push(s, s.writeIdx, at, EncodeRecord(q), k, m) == WriteRecord(b, q, Failed(m)).0
    ensures WriteRecord(b, q, Failed(0)).0 == b
  {
    hide EncodeHeader;
    var w, raw := b.writeIdx, EncodeRecord(q);
    var at := POOL_HEADER + b.slots[w].used;
    WrittenSoFar(raw, k);
    WrittenSoFar(raw, m);
    PatchPieces(b.files[w], at, raw, k, m);
    PatchNothing(b.files[w], at, raw);
    hide EncodeRecord, Patch;
  }

  lemma RecordCompletes(b: Store, q: Request)
    requires Valid(b) && !Full(b, RecordSize(q))
    ensures var s := WriteRecord(b, q, Failed(RecordSize(q))).0;
            var slot := s.slots[s.writeIdx];
            && s.writeIdx == b.writeIdx && s.slots == b.slots
            && s.(slots := s.slots[s.writeIdx := slot.(used := slot.used + RecordSize(q))]) == WriteRecord(b, q, Done).0
            && Placed(Loc(s.writeIdx, slot.poolId, POOL_HEADER + slot.used, RecordSize(q))) == WriteRecord(b, q, Done).1
  {
    hide EncodeRecord, Patch;
  }

  lemma HeaderGrows(b: Store, now: Instant, k: nat, m: nat)
    requires Valid(b) && k <= m <= POOL_HEADER
    ensures var s := Rotate(b, now, Failed(k));
            && Push(s, s.writeIdx, 0, PoolHeader(s.slots[s.writeIdx].poolId, now), k, m) == Rotate(b, now, Failed(m))
    ensures Rotate(b, now, Failed(POOL_HEADER)) == Rotate(b, now, Done)
  {
    var j := NextIdx(b);
    var header := PoolHeader((b.slots[j].poolId + |b.slots|) % U64, now);
    hide PoolHeader;
    WrittenSoFar(header, k);
    WrittenSoFar(header, m);
    PatchPieces(b.files[j], 0, header, k, m);
    hide Patch, NextIdx;
  }

  lemma HeaderBegins(b: Store, now: Instant)
    requires Valid(b)
    ensures var j := NextIdx(b);
            Rotate(b, now, Failed(0))
            == b.(writeIdx := j, slots := b.slots[j := Slot((b.slots[j].poolId + |b.slots|) % U64, 0)])
  {
    var j := NextIdx(b);
    var header := PoolHeader((b.slots[j].poolId + |b.slots|) % U64, now);
    hide PoolHeader;
    PatchNothing(b.files[j], 0, header);
    hide Patch, NextIdx;
  }

  lemma RecordAfterRotation(b: Store, q: Request, now: Instant)
    requires Valid(b) && Rotates(b, q)
    ensures WriteRecord(BaseStore(b, q, now), q, Failed(0)).0 == Rotate(b, now, Done)
  {
    RecordGrows(BaseStore(b, q, now), q, 0, 0);
    hide WriteRecord, Rotate;
  }

  /** A finished iteration of the atomic model, by how it ended. */
  lemma EndsTooLarge(r: Run, q: Request, now: Instant)
    requires Inv(r) && Valid(r.sys.store) && Sized(r) && RecordSize(q) > r.sys.store.capacity
    ensures var r' := RunStep(r, Op(q, Env(now, Done, Done)));
            Inv(r') && r'.sys == Sys(r.sys.store, Prepared(r, q).sys.index) && |r'.turns| == |r.turns|
  {
    RunStepInv(r, Op(q, Env(now, Done, Done)));
    hide Inv;
  }

  lemma EndsAtHeader(r: Run, q: Request, now: Instant, k: nat)
    requires Inv(r) && Valid(r.sys.store) && Sized(r) && Rotates(r.sys.store, q)
    ensures var r' := RunStep(r, Op(q, Env(now, Failed(k), Done)));
            Inv(r') && r'.sys == Sys(Rotate(r.sys.store, now, Failed(k)), Prepared(r, q).sys.index)
            && |r'.turns| == |r.turns|
  {
    RunStepInv(r, Op(q, Env(now, Failed(k), Done)));
    hide Inv, Rotate;
  }

  lemma EndsAtRecord(r: Run, q: Request, now: Instant, io: Io)
    requires Inv(r) && Valid(r.sys.store) && Sized(r) && RecordSize(q) <= r.sys.store.capacity
    ensures var r' := RunStep(r, Op(q, Env(now, Done, io)));
            var (store, outcome) := WriteRecord(BaseStore(r.sys.store, q, now), q, io);
            && Inv(r') && |r'.turns| == |r.turns| && r'.sys.store == store
            && r'.sys.index == (match outcome
                                case Placed(loc) =>
                                  IndexModel.Insert(Prepared(r, q).sys.index, q.camera, q.start, q.end, loc)
                                case Refused(_) => Prepared(r, q).sys.index)
  {
    RunStepInv(r, Op(q, Env(now, Done, io)));
    hide Inv, Rotate, WriteRecord, IndexModel.Insert, IndexModel.Evict;
  }

  lemma FailedIsRefused(b: Store, q: Request, k: nat)
    requires Valid(b) && !Full(b, RecordSize(q))
    ensures WriteRecord(b, q, Failed(k)).1 == Refused(RecordFailed)
  {
  }

  lemma EarlySteps(s: Conc, a: WriterAct)
    requires Core(s) && Shape(s) && WriterEnabled(s, a)
    requires a.Receive? || a.TakeIndex? || a.Evict? || a.SkipEvict? || a.TakePool?
    ensures Core(WriterStep(s, a))
  {
    hide Inv, Rotate, WriteRecord, IndexModel.Insert, IndexModel.Evict, Valid, Shape, BaseStore, Push, Finish;
  }

  lemma BeginStep(s: Conc, q: Request, now: Instant)
    requires Core(s) && Shape(s) && WriterEnabled(s, BeginAppend(now)) && s.pc == Appending(q)
    ensures Core(WriterStep(s, BeginAppend(now)))
  {
    hide Inv, Rotate, WriteRecord, IndexModel.Insert, IndexModel.Evict, Shape, Push, RunStep, EncodeRecord;
    var r := s.run;
    if RecordSize(q) > s.store.capacity {
      EndsTooLarge(r, q, now);
    } else if !Full(s.store, RecordSize(q)) {
      RecordGrows(s.store, q, 0, 0);
    }
    hide Valid;
  }

  lemma PollStep(s: Conc, q: Request, polls: nat, now: Instant)
    requires Core(s) && Shape(s) && WriterEnabled(s, Poll(now)) && s.pc == Waiting(q, polls)
    ensures Core(WriterStep(s, Poll(now)))
  {
    hide Inv, Rotate, WriteRecord, IndexModel.Insert, IndexModel.Evict, Valid, Shape, Push, RunStep, EncodeRecord,
      BaseStore, Prepared, PoolHeader;
    HeaderBegins(s.run.sys.store, now);
  }

  lemma HeaderFailsStep(s: Conc, q: Request, now: Instant, done: nat)
    requires Core(s) && Shape(s) && WriterEnabled(s, HeaderFails) && s.pc == HeaderOut(q, now, done)
    ensures Core(WriterStep(s, HeaderFails))
  {
    EndsAtHeader(s.run, q, now, done);
    hide Inv, Rotate, WriteRecord, IndexModel.Insert, IndexModel.Evict, Valid, Shape, Push, RunStep, EncodeRecord,
      BaseStore, Prepared, PoolHeader;
  }

  lemma HeaderBytesStep(s: Conc, q: Request, now: Instant, done: nat, k: nat)
    requires Core(s) && Shape(s) && WriterEnabled(s, HeaderBytes(k)) && s.pc == HeaderOut(q, now, done)
    ensures Core(WriterStep(s, HeaderBytes(k)))
  {
    hide Inv, Rotate, WriteRecord, IndexModel.Insert, IndexModel.Evict, Valid, Shape, Push, RunStep, EncodeRecord,
      BaseStore, Prepared, PoolHeader;
    HeaderGrows(s.run.sys.store, now, done, k);
    RecordAfterRotation(s.run.sys.store, q, now);
  }

  lemma RecordFailsStep(s: Conc, q: Request, now: Instant, done: nat)
    requires Core(s) && Shape(s) && WriterEnabled(s, RecordFails) && s.pc == RecordOut(q, now, done)
    ensures Core(WriterStep(s, RecordFails))
  {
    hide Inv, Rotate, WriteRecord, IndexModel.Insert, IndexModel.Evict, Valid, Shape, Push, RunStep, EncodeRecord,
      BaseStore, Prepared, PoolHeader;
    EndsAtRecord(s.run, q, now, Failed(done));
    FailedIsRefused(BaseStore(s.run.sys.store, q, now), q, done);
  }

  lemma RecordBytesStep(s: Conc, q: Request, now: Instant, done: nat, k: nat)
    requires Core(s) && Shape(s) && WriterEnabled(s, RecordBytes(k)) && s.pc == RecordOut(q, now, done)
    ensures Core(WriterStep(s, RecordBytes(k)))
  {
    hide Inv, Rotate, WriteRecord, IndexModel.Insert, IndexModel.Evict, Valid, Shape, Push, RunStep, EncodeRecord,
      BaseStore, Prepared, PoolHeader;
    RecordGrows(BaseStore(s.run.sys.store, q, now), q, done, k);
  }

  lemma FinishStep(s: Conc, q: Request, now: Instant)
    requires Core(s) && Shape(s) && WriterEnabled(s, FinishAppend)
    requires s.pc == RecordOut(q, now, RecordSize(q))
    ensures Core(WriterStep(s, FinishAppend))
  {
    hide Inv, Rotate, WriteRecord, IndexModel.Insert, IndexModel.Evict, Valid, Shape, Push, RunStep, EncodeRecord,
      BaseStore, Prepared, PoolHeader;
    RecordCompletes(BaseStore(s.run.sys.store, q, now), q);
  }

  lemma InsertStep(s: Conc, q: Request, now: Instant, loc: Loc)
    requires Core(s) && Shape(s) && WriterEnabled(s, Insert) && s.pc == Inserting(q, now, loc)
    ensures Core(WriterStep(s, Insert))
  {
    EndsAtRecord(s.run, q, now, Done);
    hide Inv, Rotate, WriteRecord, IndexModel.Insert, IndexModel.Evict, Valid, Shape, Push, RunStep, EncodeRecord,
      BaseStore, Prepared, PoolHeader;
  }

  lemma WriterStepCore(s: Conc, a: WriterAct)
    requires Core(s) && Shape(s) && WriterEnabled(s, a)
    ensures Core(WriterStep(s, a))
  {
    hide Core, Shape, WriterStep, RecordSize;
    match a {
      case BeginAppend(now) => BeginStep(s, s.pc.q, now);
      case Poll(now) => PollStep(s, s.pc.q, s.pc.polls, now);
      case HeaderBytes(k) => HeaderBytesStep(s, s.pc.q, s.pc.now, s.pc.done, k);
      case HeaderFails => HeaderFailsStep(s, s.pc.q, s.pc.now, s.pc.done);
      case RecordBytes(k) => RecordBytesStep(s, s.pc.q, s.pc.now, s.pc.done, k);
      case RecordFails => RecordFailsStep(s, s.pc.q, s.pc.now, s.pc.done);
      case FinishAppend => FinishStep(s, s.pc.q, s.pc.now);
      case Insert => InsertStep(s, s.pc.q, s.pc.now, s.pc.loc);
      case _ => EarlySteps(s, a);
    }
  }

  lemma ShapeOf(s: Conc)
    requires Core(s)
    ensures Shape(s)
  {
    hide Inv, EncodeRecord, PoolHeader, Patch, Prepared;
  }

  // ---- what that means for the data ----

  lemma PreparedInv(r: Run, q: Request)
    requires Inv(r) && Valid(r.sys.store) && Sized(r)
    ensures Inv(Prepared(r, q)) && Prepared(r, q).hist == r.hist && Prepared(r, q).turns == r.turns
    ensures Full(r.sys.store, RecordSize(q)) ==>
              forall m :: m in Prepared(r, q).sys.index.entries ==> m.loc.poolIdx != NextIdx(r.sys.store)
    ensures forall m :: m in Prepared(r, q).sys.index.entries ==> m in r.sys.index.entries
  {
    if Full(r.sys.store, RecordSize(q)) {
      EvictedInv(r);
    }
    hide Inv;
  }

  lemma BaseInv(r: Run, q: Request, now: Instant)
    requires Inv(r) && Valid(r.sys.store) && Sized(r) && RecordSize(q) <= r.sys.store.capacity
    ensures var b := Base(r, q, now);
            Inv(b) && b.hist == r.hist && b.sys == Sys(BaseStore(r.sys.store, q, now), Prepared(r, q).sys.index)
            && |b.turns| == |r.turns|
  {
    PreparedInv(r, q);
    if Full(r.sys.store, RecordSize(q)) {
      RotatedInv(Prepared(r, q), now, Done);
    }
    hide Inv, IndexModel.Evict, PoolHeader, Valid;
  }

  lemma RecordedKeeps(b: Run, q: Request, io: Io)
    requires Inv(b) && Valid(b.sys.store) && Sized(b) && !Full(b.sys.store, RecordSize(q))
    ensures var m := Recorded(b, q, io);
            && Inv(m) && b.hist <= m.hist && |m.turns| == |b.turns| && m.sys.store == WriteRecord(b.sys.store, q, io).0
            && forall e :: e in b.sys.index.entries ==> e in m.sys.index.entries
  {
    RecordedInv(b, q, io);
    hide Inv, KeyLe, EncodeRecord, Valid;
    if io.Done? {
      forall e | e in b.sys.index.entries ensures e in Recorded(b, q, Done).sys.index.entries {
        InsertMembers(b.sys.index.entries, Recorded(b, q, Done).hist[|b.hist|].meta, KeyLe, e);
      }
    }
  }

  /** What the lemmas below need of the shared data: it is that of a state of the atomic model. */
  ghost predicate Reflects(s: Conc, m: Run) {
    && Inv(m) && Valid(m.sys.store) && Sized(m) && s.run.hist <= m.hist
    && s.store.files == m.sys.store.files && s.store.slots == m.sys.store.slots
    && s.store.capacity == m.sys.store.capacity
    && |s.store.slots| == |s.run.turns| == |m.turns| == |s.counters|
    && (forall e :: e in s.index.entries ==>
          e.id < |s.run.hist| && e == s.run.hist[e.id].meta && e in m.sys.index.entries)
  }

  lemma EntriesKnown(r: Run)
    requires Inv(r)
    ensures forall e :: e in r.sys.index.entries ==> e.id < |r.hist| && e == r.hist[e.id].meta
  {
  }

  lemma SharedBefore(s: Conc)
    requires Core(s) && (s.pc.Idle? || s.pc.Checked? || s.pc.Evicting?)
    ensures Reflects(s, Mid(s))
  {
    EntriesKnown(s.run);
    hide Inv, Full;
  }

  lemma SharedPrepared(s: Conc, q: Request)
    requires Core(s) && (s.pc.Ready? || s.pc.Appending? || s.pc.Waiting?) && q == s.pc.q
    ensures Reflects(s, Mid(s))
  {
    EntriesKnown(s.run);
    PreparedInv(s.run, q);
    assert Prepared(s.run, q).sys.store == s.run.sys.store;
    hide Inv, Full, Prepared;
  }

  lemma SharedHeader(s: Conc, q: Request, now: Instant, done: nat)
    requires Core(s) && s.pc == HeaderOut(q, now, done)
    ensures Reflects(s, Mid(s))
  {
    EntriesKnown(s.run);
    PreparedInv(s.run, q);
    RotatedInv(Prepared(s.run, q), now, Failed(done));
    assert Prepared(s.run, q).sys.store == s.run.sys.store;
    hide Inv, Prepared, Rotate;
  }

  lemma SharedRecord(s: Conc, q: Request, now: Instant, io: Io)
    requires Core(s) && (s.pc.RecordOut? || s.pc.Written? || s.pc.Inserting?) && q == s.pc.q && now == s.pc.now
    requires io == if s.pc.RecordOut? then Failed(s.pc.done) else Done
    ensures Reflects(s, Mid(s))
  {
    hide Core, Mid, Inv, Valid, Prepared, WriteRecord, BaseStore, Base, Recorded, Full;
    RecordPoint(s, q, now, io);
    EntriesKnown(s.run);
    PreparedInv(s.run, q);
    BaseInv(s.run, q, now);
    RecordedKeeps(Base(s.run, q, now), q, io);
  }

  /** Core and Mid at the three positions around the record write. */
  lemma RecordPoint(s: Conc, q: Request, now: Instant, io: Io)
    requires Core(s) && (s.pc.RecordOut? || s.pc.Written? || s.pc.Inserting?) && q == s.pc.q && now == s.pc.now
    requires io == if s.pc.RecordOut? then Failed(s.pc.done) else Done
    ensures Inv(s.run) && Valid(s.run.sys.store) && Sized(s.run) && RecordSize(q) <= s.run.sys.store.capacity
    ensures |s.counters| == |s.run.turns|
    ensures s.store == WriteRecord(BaseStore(s.run.sys.store, q, now), q, io).0
    ensures s.index == Prepared(s.run, q).sys.index
    ensures Mid(s) == Recorded(Base(s.run, q, now), q, io)
  {
    hide Inv, Valid, WriteRecord, BaseStore, Prepared, Base, Recorded;
  }

  lemma SharedStore(s: Conc)
    requires Core(s)
    ensures Reflects(s, Mid(s))
  {
    hide Core, Mid, Reflects;
    match s.pc {
      case Ready(q) => SharedPrepared(s, q);
      case Appending(q) => SharedPrepared(s, q);
      case Waiting(q, _) => SharedPrepared(s, q);
      case HeaderOut(q, now, done) => SharedHeader(s, q, now, done);
      case RecordOut(q, now, done) => SharedRecord(s, q, now, Failed(done));
      case Written(q, now, _) => SharedRecord(s, q, now, Done);
      case Inserting(q, now, _) => SharedRecord(s, q, now, Done);
      case _ => SharedBefore(s);
    }
  }

  /** What an export may rely on at any moment: the bytes of every index entry are those accepted under its id. */
  lemma EntryBytes(s: Conc, e: Meta)
    requires Core(s) && e in s.index.entries
    ensures e.id < |s.run.hist| && |s.run.hist[e.id].raw| == e.loc.size >= RECORD_HEADER
    ensures Addressable(s.store, e.loc) && ReadSegment(s.store, e.loc) == Some(Payload(s.run.hist[e.id]))
  {
    SharedStore(s);
    var m := Mid(s);
    EntryReadable(m, e);
    assert Placement(m, m.hist[e.id]);
    assert m.hist[e.id] == s.run.hist[e.id];
    hide Inv, Mid, Core;
  }

  /** The file still carries the location's pool id, and has been rotated into too few times for ids to repeat. */
  ghost predicate SameFile(s: Conc, loc: Loc)
    requires Core(s)
  {
    var m := Mid(s);
    && loc.poolIdx < |s.store.slots| && s.store.slots[loc.poolIdx].poolId == loc.poolId
    && loc.poolIdx < |m.turns| && |m.turns| * m.turns[loc.poolIdx] < U64
  }

  /** No later pass has put other bytes over the payload of the record accepted under the location's id. */
  ghost predicate Untouched(s: Conc, meta: Meta)
    requires Core(s)
  {
    var m := Mid(s);
    meta.id < |m.hist| && m.hist[meta.id].meta.loc.poolIdx < |m.turns| && Unharmed(m, meta.id)
  }

  /** What a segment request may rely on: as long as the file's id is the one in the location, the bytes are
      those accepted, however old the lookup. */
  lemma SameIdSameBytes(s: Conc, id: nat)
    requires Core(s) && id < |s.run.hist|
    ensures var h := s.run.hist[id];
            && |h.raw| == h.meta.loc.size >= RECORD_HEADER && h.meta.loc.poolIdx < |s.store.slots|
            && Addressable(s.store, h.meta.loc)
            && h.meta.loc.offset + h.meta.loc.size <= |s.store.files[h.meta.loc.poolIdx]|
            && (SameFile(s, h.meta.loc) ==> ReadSegment(s.store, h.meta.loc) == Some(Payload(h)))
  {
    SharedStore(s);
    var m := Mid(s);
    hide Core, Mid;
    var h := m.hist[id];
    assert h == s.run.hist[id];
    assert Placement(m, h);
    var j := h.meta.loc.poolIdx;
    assert s.store.slots[j].poolId == PoolIdAfter(m.base[j], |m.turns|, m.turns[j]);
    if SameFile(s, h.meta.loc) {
      PoolIdUnique(m.base[j], |m.turns|, h.turn, m.turns[j]);
      assert Live(m, h) && Intact(m.sys.store, h);
      var f := s.store.files[j];
      assert f[h.meta.loc.offset + RECORD_HEADER..End(h)] == f[h.meta.loc.offset..End(h)][RECORD_HEADER..];
    }
  }
}
