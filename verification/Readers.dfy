/** Readers beside the writer: their steps, the invariant of the whole system, and what holds in every
    interleaving. */
module Readers {
  import opened Bytes
  import opened RecordFormat
  import opened PoolModel
  import opened IndexModel
  import opened Sorting
  import opened WriterModel
  import opened Protocol

  datatype ReaderAct =
    | Query                      // look up in the index
    | AcquireGuard(j: nat)
    | EndQuery
    | BeginRead
    | ReadBytes(upTo: nat)
    | NextSegment
    | EndRead
    | Abort                      // a read error ends the export
    | LockPool
    | ReadData
    | DropGuard(j: nat)
    | UnlockPool

  /** The payload accepted under an id. */
  function PayloadOf(s: Conc, id: nat): seq<byte> {
    if id < |s.run.hist| && |s.run.hist[id].raw| >= RECORD_HEADER then Payload(s.run.hist[id]) else []
  }

  function DataLen(m: Meta): nat {
    if m.loc.size >= RECORD_HEADER then m.loc.size - RECORD_HEADER else 0
  }

  ghost predicate ReaderEnabled(s: Conc, id: nat, a: ReaderAct) {
    id in s.readers
    && var x := s.readers[id];
       match a
       case Query => (x.XStart? || x.SStart?) && !s.indexLock.writer
       case AcquireGuard(j) =>
         j < |s.counters| && ((x.XQuery? && j in x.todo) || (x.SLocked? && j == x.meta.loc.poolIdx))
       case EndQuery => x.XQuery? && x.todo == {}
       case BeginRead => x.XGuarded? && !s.indexLock.writer
       case ReadBytes(k) =>
         x.XReading? && |x.outs| < |x.segs| && |x.part| < k <= DataLen(x.segs[|x.outs|])
         && var loc := x.segs[|x.outs|].loc;
            Addressable(s.store, loc) && loc.offset + RECORD_HEADER + k <= |s.store.files[loc.poolIdx]|
       case NextSegment => x.XReading? && |x.outs| < |x.segs| && |x.part| == DataLen(x.segs[|x.outs|])
       case EndRead => x.XReading? && |x.outs| == |x.segs|
       case Abort => x.XReading?
       case LockPool => x.SFound? && !s.poolLock.writer
       case ReadData => x.SGuarded? && Addressable(s.store, x.meta.loc)
       case DropGuard(j) =>
         j < |s.counters| && s.counters[j] > 0
         && ((x.XDropping? && j in x.guards) || (x.SRead? && j == x.meta.loc.poolIdx))
       case UnlockPool => x.SReleased?
  }

  /** The entries of the index that overlap a range, in key order. */
  ghost function Matches(s: Conc, camera: seq<byte>, from: Instant, to: Instant): seq<Meta> {
    InRange(s.index, camera, from, to)
  }

  ghost function FilesOf(segs: seq<Meta>): set<nat> {
    set m | m in segs :: m.loc.poolIdx
  }

  ghost function LookedUp(s: Conc, x: Reader): Reader
    requires x.SStart?
  {
    if exists m :: m in s.index.entries && m.camera == x.camera && m.id == x.segId then
      var m :| m in s.index.entries && m.camera == x.camera && m.id == x.segId;
      SFound(x.camera, x.segId, m)
    else SMissing(x.camera, x.segId)
  }

  ghost function Look(s: Conc, meta: Meta): Seen
    requires Core(s) && Addressable(s.store, meta.loc)
  {
    Seen(ReadSegment(s.store, meta.loc), SameFile(s, meta.loc), Untouched(s, meta))
  }

  /** Where the reader gets to. */
  ghost function Moved(s: Conc, id: nat, a: ReaderAct): Reader
    requires Core(s) && ReaderEnabled(s, id, a)
  {
    var x := s.readers[id];
    match a
    case Query =>
      if x.SStart? then LookedUp(s, x)
      else XQuery(x.camera, x.from, x.to, FilesOf(Matches(s, x.camera, x.from, x.to)), {})
    case AcquireGuard(j) =>
      if x.XQuery? then x.(todo := x.todo - {j}, guards := x.guards + {j})
      else SGuarded(x.camera, x.segId, x.meta)
    case EndQuery => XGuarded(x.camera, x.from, x.to, x.guards)
    case BeginRead => XReading(x.camera, x.from, x.to, x.guards, Matches(s, x.camera, x.from, x.to), [], [])
    case ReadBytes(k) =>
      var loc := x.segs[|x.outs|].loc;
      var at := loc.offset + RECORD_HEADER;
      x.(part := x.part + s.store.files[loc.poolIdx][at + |x.part|..at + k])
    case NextSegment => x.(outs := x.outs + [x.part], part := [])
    case EndRead => XDropping(x.camera, x.from, x.to, x.guards, x.segs, x.outs, false)
    case Abort => XDropping(x.camera, x.from, x.to, x.guards, x.segs, x.outs, true)
    case LockPool => SLocked(x.camera, x.segId, x.meta)
    case ReadData => SRead(x.camera, x.segId, x.meta, Look(s, x.meta))
    case DropGuard(j) =>
      if x.XDropping? then x.(guards := x.guards - {j}) else SReleased(x.camera, x.segId, x.meta, x.seen)
    case UnlockPool => SDone(x.camera, x.segId, x.meta, x.seen)
  }

  ghost function Relocked(lock: Lock, id: nat, held: bool): Lock {
    lock.(readers := if held then lock.readers + {id} else lock.readers - {id})
  }

  ghost function Recounted(counters: seq<nat>, a: ReaderAct): seq<nat>
    requires a.AcquireGuard? ==> a.j < |counters|
    requires a.DropGuard? ==> a.j < |counters| && counters[a.j] > 0
  {
    match a
    case AcquireGuard(j) => counters[j := counters[j] + 1]
    case DropGuard(j) => counters[j := counters[j] - 1]
    case _ => counters
  }

  ghost function ReaderStep(s: Conc, id: nat, a: ReaderAct): Conc
    requires Core(s) && ReaderEnabled(s, id, a)
  {
    var x := Moved(s, id, a);
    s.(readers := s.readers[id := x], counters := Recounted(s.counters, a),
       indexLock := Relocked(s.indexLock, id, HoldsIndex(x)), poolLock := Relocked(s.poolLock, id, HoldsPool(x)))
  }

  // ---- the invariant ----

  ghost function IndexReaders(readers: map<nat, Reader>): set<nat> {
    set id | id in readers && HoldsIndex(readers[id])
  }

  ghost function PoolReaders(readers: map<nat, Reader>): set<nat> {
    set id | id in readers && HoldsPool(readers[id])
  }

  /** The readers with a live guard on file `j`. */
  ghost function Holders(readers: map<nat, Reader>, j: nat): set<nat> {
    set id | id in readers && j in GuardsOf(readers[id])
  }

  ghost predicate LocksOk(s: Conc) {
    && s.indexLock == Lock(WriterHoldsIndex(s.pc), IndexReaders(s.readers))
    && s.poolLock == Lock(WriterHoldsPool(s.pc), PoolReaders(s.readers))
    && (s.indexLock.writer ==> s.indexLock.readers == {})
    && (s.poolLock.writer ==> s.poolLock.readers == {})
  }

  ghost predicate CountersOk(s: Conc) {
    forall j: nat :: j < |s.counters| ==> s.counters[j] == |Holders(s.readers, j)|
  }

  ghost predicate Known(s: Conc, m: Meta) {
    m.id < |s.run.hist| && m == s.run.hist[m.id].meta
  }

  /** The first outputs of an export are the payloads of its segments. */
  ghost predicate Exact(s: Conc, segs: seq<Meta>, outs: seq<seq<byte>>) {
    && |outs| <= |segs|
    && (forall k :: 0 <= k < |segs| ==> Known(s, segs[k]))
    && (forall k :: 0 <= k < |outs| ==> outs[k] == PayloadOf(s, segs[k].id))
  }

  /** The entry found is the one that was asked for. */
  ghost predicate Asked(s: Conc, x: Reader)
    requires x.SFound? || x.SLocked? || x.SGuarded? || x.SRead? || x.SReleased? || x.SDone?
  {
    Known(s, x.meta) && x.meta.camera == x.camera && x.meta.id == x.segId
  }

  ghost predicate SeenOk(s: Conc, x: Reader)
    requires x.SRead? || x.SReleased? || x.SDone?
  {
    Asked(s, x) && (x.seen.same ==> x.seen.data == Some(PayloadOf(s, x.meta.id)))
  }

  ghost predicate ReaderOk(s: Conc, x: Reader) {
    && (forall j :: j in GuardsOf(x) ==> j < |s.counters|)
    && match x
       case XQuery(camera, from, to, todo, guards) =>
         && todo !! guards && todo + guards == FilesOf(Matches(s, camera, from, to))
         && (forall j :: j in todo ==> j < |s.counters|)
       case XReading(camera, from, to, _, segs, outs, part) =>
         && segs == Matches(s, camera, from, to) && Exact(s, segs, outs)
         && (forall k :: 0 <= k < |segs| ==> segs[k] in s.index.entries)
         && (if |outs| < |segs| then part <= PayloadOf(s, segs[|outs|].id) else part == [])
       case XDropping(_, _, _, _, segs, outs, failed) => Exact(s, segs, outs) && (failed || |outs| == |segs|)
       case SFound(_, _, _) => Asked(s, x)
       case SLocked(_, _, _) => Asked(s, x)
       case SGuarded(_, _, _) => Asked(s, x)
       case SRead(_, _, _, _) => SeenOk(s, x)
       case SReleased(_, _, _, _) => SeenOk(s, x)
       case SDone(_, _, _, _) => SeenOk(s, x)
       case _ => true
  }

  ghost predicate ReadersOk(s: Conc) {
    forall id :: id in s.readers ==> ReaderOk(s, s.readers[id])
  }

  ghost predicate SysInv(s: Conc) {
    Core(s) && Shape(s) && LocksOk(s) && CountersOk(s) && ReadersOk(s)
  }

  // ---- writer steps ----

  lemma HistoryKept(s: Conc, a: WriterAct)
    requires Core(s) && Shape(s) && WriterEnabled(s, a)
    ensures var s' := WriterStep(s, a);
            && s.run.hist <= s'.run.hist && s'.readers == s.readers && s'.counters == s.counters
            && (!a.Evict? && !a.Insert? ==> s'.index == s.index)
            && s'.indexLock.readers == s.indexLock.readers && s'.poolLock.readers == s.poolLock.readers
  {
    hide Core, EncodeRecord, PoolHeader, Push, IndexModel.Evict, IndexModel.Insert, Rotate, WriteRecord, Valid;
  }

  /** A lock's writer side follows the writer's position, and is taken only when nobody holds the lock. */
  lemma WriterTakesLocks(s: Conc, a: WriterAct)
    requires Core(s) && Shape(s) && WriterEnabled(s, a)
    requires s.indexLock.writer == WriterHoldsIndex(s.pc) && s.poolLock.writer == WriterHoldsPool(s.pc)
    ensures var s' := WriterStep(s, a);
            && s'.indexLock.writer == WriterHoldsIndex(s'.pc) && s'.poolLock.writer == WriterHoldsPool(s'.pc)
            && (s'.indexLock.writer && !s.indexLock.writer ==> s.indexLock.readers == {})
            && (s'.poolLock.writer && !s.poolLock.writer ==> s.poolLock.readers == {})
  {
    hide Core, Shape, EncodeRecord, PoolHeader, Push, IndexModel.Evict, IndexModel.Insert, Rotate, WriteRecord, Valid,
      RunStep, Full, NextIdx;
  }

  lemma WriterLocks(s: Conc, a: WriterAct)
    requires Core(s) && Shape(s) && WriterEnabled(s, a) && LocksOk(s)
    ensures LocksOk(WriterStep(s, a))
  {
    HistoryKept(s, a);
    WriterTakesLocks(s, a);
    hide Core, Shape, WriterEnabled, WriterStep, WriterHoldsIndex, WriterHoldsPool, IndexReaders, PoolReaders;
  }

  /** What keeps a reader's claims true: a growing history and, while it relies on it, an unchanged index. */
  lemma ReaderOkKept(s: Conc, s': Conc, x: Reader)
    requires ReaderOk(s, x) && s.run.hist <= s'.run.hist && |s.counters| == |s'.counters|
    requires HoldsIndex(x) ==> s'.index == s.index
    ensures ReaderOk(s', x)
  {
    HistoryGrows(s, s');
    hide PayloadOf, Known, InRange, FilesOf;
  }

  lemma HistoryGrows(s: Conc, s': Conc)
    requires s.run.hist <= s'.run.hist
    ensures forall m :: Known(s, m) ==> Known(s', m) && PayloadOf(s', m.id) == PayloadOf(s, m.id)
  {
    assert forall i: nat :: i < |s.run.hist| ==> s'.run.hist[i] == s.run.hist[i];
  }

  /** A reader is not disturbed: an export holds the index lock while it depends on the index. */
  lemma WriterKeepsReader(s: Conc, a: WriterAct, id: nat)
    requires Core(s) && Shape(s) && WriterEnabled(s, a) && LocksOk(s) && id in s.readers && ReaderOk(s, s.readers[id])
    ensures ReaderOk(WriterStep(s, a), s.readers[id])
  {
    HistoryKept(s, a);
    hide Core, Shape, WriterStep, ReaderOk;
    if HoldsIndex(s.readers[id]) {
      assert id in s.indexLock.readers;
    }
    ReaderOkKept(s, WriterStep(s, a), s.readers[id]);
  }

  lemma WriterStepInv(s: Conc, a: WriterAct)
    requires SysInv(s) && WriterEnabled(s, a)
    ensures SysInv(WriterStep(s, a))
  {
    WriterStepCore(s, a);
    ShapeOf(WriterStep(s, a));
    WriterLocks(s, a);
    HistoryKept(s, a);
    hide Core, Shape, LocksOk, ReaderOk, WriterStep, Holders;
    forall id | id in s.readers ensures ReaderOk(WriterStep(s, a), s.readers[id]) {
      WriterKeepsReader(s, a, id);
    }
  }

  // ---- reader steps ----

  lemma ReaderLocks(s: Conc, id: nat, a: ReaderAct)
    requires SysInv(s) && ReaderEnabled(s, id, a)
    ensures LocksOk(ReaderStep(s, id, a))
  {
    hide Core, Shape, CountersOk, ReadersOk;
    var x, x' := s.readers[id], Moved(s, id, a);
    var s' := ReaderStep(s, id, a);
    assert IndexReaders(s'.readers) == Relocked(s.indexLock, id, HoldsIndex(x')).readers;
    assert PoolReaders(s'.readers) == Relocked(s.poolLock, id, HoldsPool(x')).readers;
    assert HoldsIndex(x) ==> id in s.indexLock.readers;
    assert HoldsPool(x) ==> id in s.poolLock.readers;
    assert HoldsIndex(x') && !HoldsIndex(x) ==> !s.indexLock.writer;
    assert HoldsPool(x') && !HoldsPool(x) ==> !s.poolLock.writer;
    hide Moved;
  }

  lemma HoldersMoved(readers: map<nat, Reader>, id: nat, x: Reader, j: nat)
    requires id in readers
    ensures Holders(readers[id := x], j)
            == if j in GuardsOf(x) then Holders(readers, j) + {id} else Holders(readers, j) - {id}
    ensures id in Holders(readers, j) <==> j in GuardsOf(readers[id])
  {
  }

  lemma HoldersCount(readers: map<nat, Reader>, id: nat, x: Reader, j: nat)
    requires id in readers
    ensures var before, now := j in GuardsOf(readers[id]), j in GuardsOf(x);
            |Holders(readers[id := x], j)| == |Holders(readers, j)| + (if now && !before then 1 else 0)
                                              - (if before && !now then 1 else 0)
  {
    hide Holders, GuardsOf;
    HoldersMoved(readers, id, x, j);
    if j in GuardsOf(x) {
      assert id in Holders(readers, j) ==> Holders(readers, j) + {id} == Holders(readers, j);
    } else {
      assert id !in Holders(readers, j) ==> Holders(readers, j) - {id} == Holders(readers, j);
    }
  }

  lemma GuardsMoved(s: Conc, id: nat, a: ReaderAct)
    requires Core(s) && ReaderEnabled(s, id, a) && ReaderOk(s, s.readers[id])
    ensures var x, x' := s.readers[id], Moved(s, id, a);
            && (a.AcquireGuard? ==> a.j !in GuardsOf(x) && GuardsOf(x') == GuardsOf(x) + {a.j})
            && (a.DropGuard? ==> a.j in GuardsOf(x) && GuardsOf(x') == GuardsOf(x) - {a.j})
            && (!a.AcquireGuard? && !a.DropGuard? ==> GuardsOf(x') == GuardsOf(x))
  {
    hide Core, Matches, FilesOf, SameFile, Untouched, ReadSegment, Exact;
  }

  lemma GuardInRange(s: Conc, id: nat, a: ReaderAct)
    requires ReaderEnabled(s, id, a)
    ensures id in s.readers
    ensures a.AcquireGuard? ==> a.j < |s.counters|
    ensures a.DropGuard? ==> a.j < |s.counters| && s.counters[a.j] > 0
  {
    hide Addressable;
  }

  lemma IsOk(s: Conc, id: nat)
    requires ReadersOk(s) && id in s.readers
    ensures ReaderOk(s, s.readers[id])
  {
  }

  lemma ReaderCounters(s: Conc, id: nat, a: ReaderAct)
    requires SysInv(s) && ReaderEnabled(s, id, a)
    ensures CountersOk(ReaderStep(s, id, a))
  {
    hide Core, Shape, LocksOk, ReadersOk, Moved, ReaderOk, GuardsOf, Holders, ReaderEnabled;
    var x' := Moved(s, id, a);
    GuardInRange(s, id, a);
    IsOk(s, id);
    GuardsMoved(s, id, a);
    forall j: nat | j < |s.counters|
      ensures ReaderStep(s, id, a).counters[j] == |Holders(s.readers[id := x'], j)|
    {
      HoldersCount(s.readers, id, x', j);
    }
  }

  lemma IndexedKnown(s: Conc)
    requires Core(s)
    ensures forall e :: e in s.index.entries ==> Known(s, e) && e.loc.poolIdx < |s.counters|
  {
    SharedStore(s);
    var m := Mid(s);
    forall e | e in s.index.entries ensures e.loc.poolIdx < |s.counters| {
      assert Placement(m, m.hist[e.id]);
      assert m.hist[e.id] == s.run.hist[e.id];
    }
    hide Core, Mid;
  }

  lemma MatchesKnown(s: Conc, camera: seq<byte>, from: Instant, to: Instant)
    requires Core(s)
    ensures var segs := Matches(s, camera, from, to);
            && (forall k :: 0 <= k < |segs| ==> segs[k] in s.index.entries && Known(s, segs[k]))
            && (forall j :: j in FilesOf(segs) ==> j < |s.counters|)
  {
    IndexedKnown(s);
    hide Core, Filter;
    var segs := Matches(s, camera, from, to);
    forall k | 0 <= k < |segs| ensures segs[k] in s.index.entries {
      assert segs[k] in segs;
    }
  }

  lemma EntryPayload(s: Conc, e: Meta)
    requires Core(s) && e in s.index.entries
    ensures e.id < |s.run.hist| && |PayloadOf(s, e.id)| == DataLen(e)
    ensures var at := e.loc.offset + RECORD_HEADER;
            && Addressable(s.store, e.loc) && at + DataLen(e) <= |s.store.files[e.loc.poolIdx]|
            && s.store.files[e.loc.poolIdx][at..at + DataLen(e)] == PayloadOf(s, e.id)
  {
    hide Core;
    EntryBytes(s, e);
  }

  lemma PartOfPart(f: seq<byte>, at: nat, len: nat, n: nat, k: nat)
    requires n <= k <= len && at + len <= |f|
    ensures f[at + n..at + k] == f[at..at + len][n..k]
  {
    var a, b := f[at + n..at + k], f[at..at + len][n..k];
    assert |a| == |b| && forall i :: 0 <= i < |a| ==> a[i] == b[i];
  }

  /** The next bytes an export reads continue the payload it is reading. */
  lemma ReadContinues(s: Conc, e: Meta, n: nat, k: nat)
    requires Core(s) && e in s.index.entries && n <= k <= DataLen(e)
    ensures e.id < |s.run.hist| && |PayloadOf(s, e.id)| == DataLen(e)
    ensures var at := e.loc.offset + RECORD_HEADER;
            && Addressable(s.store, e.loc) && at + k <= |s.store.files[e.loc.poolIdx]|
            && s.store.files[e.loc.poolIdx][at + n..at + k] == PayloadOf(s, e.id)[n..k]
  {
    hide Core, PayloadOf, DataLen;
    EntryPayload(s, e);
    PartOfPart(s.store.files[e.loc.poolIdx], e.loc.offset + RECORD_HEADER, DataLen(e), n, k);
  }

  lemma PayloadKnown(s: Conc, id: nat)
    requires Core(s) && id < |s.run.hist|
    ensures PayloadOf(s, id) == s.run.hist[id].raw[RECORD_HEADER..]
  {
    SameIdSameBytes(s, id);
    hide Core;
  }

  lemma PartGrows(p: seq<byte>, part: seq<byte>, k: nat)
    requires part <= p && |part| <= k <= |p|
    ensures part + p[|part|..k] == p[..k] <= p
  {
    assert p[..|part|] == part;
  }

  lemma BytesMovedOk(s: Conc, id: nat, k: nat, x: Reader)
    requires Core(s) && ReaderEnabled(s, id, ReadBytes(k)) && x == s.readers[id] && ReaderOk(s, x)
    ensures ReaderOk(s, Moved(s, id, ReadBytes(k)))
  {
    hide Core, PayloadOf, Known, Matches, DataLen, Addressable, Exact;
    var e := x.segs[|x.outs|];
    ReadContinues(s, e, |x.part|, k);
    PartGrows(PayloadOf(s, e.id), x.part, k);
  }

  lemma NextMovedOk(s: Conc, id: nat, x: Reader)
    requires Core(s) && ReaderEnabled(s, id, NextSegment) && x == s.readers[id] && ReaderOk(s, x)
    ensures ReaderOk(s, Moved(s, id, NextSegment))
  {
    hide Core, PayloadOf, Known, Matches, DataLen, Addressable;
    var e := x.segs[|x.outs|];
    EntryPayload(s, e);
    assert x.part == PayloadOf(s, e.id);
    if |x.outs| + 1 < |x.segs| {
      assert [] <= PayloadOf(s, x.segs[|x.outs| + 1].id);
    }
  }

  lemma QueryMovedOk(s: Conc, id: nat)
    requires Core(s) && ReaderEnabled(s, id, Query)
    ensures ReaderOk(s, Moved(s, id, Query))
  {
    var x := s.readers[id];
    IndexedKnown(s);
    if x.XStart? {
      MatchesKnown(s, x.camera, x.from, x.to);
    }
    hide Core, Matches, FilesOf, PayloadOf;
  }

  lemma BeginMovedOk(s: Conc, id: nat)
    requires Core(s) && ReaderEnabled(s, id, BeginRead) && ReaderOk(s, s.readers[id])
    ensures ReaderOk(s, Moved(s, id, BeginRead))
  {
    hide Core, Matches, PayloadOf, FilesOf, Known;
    var x := s.readers[id];
    var segs := Matches(s, x.camera, x.from, x.to);
    MatchesKnown(s, x.camera, x.from, x.to);
    if segs != [] {
      assert [] <= PayloadOf(s, segs[0].id);
    }
  }

  lemma DataMovedOk(s: Conc, id: nat)
    requires Core(s) && ReaderEnabled(s, id, ReadData) && ReaderOk(s, s.readers[id])
    ensures ReaderOk(s, Moved(s, id, ReadData))
  {
    var x := s.readers[id];
    SameIdSameBytes(s, x.meta.id);
    PayloadKnown(s, x.meta.id);
    hide Core, PayloadOf, ReadSegment, SameFile, Untouched;
  }

  lemma PlainMovedOk(s: Conc, id: nat, a: ReaderAct)
    requires Core(s) && ReaderEnabled(s, id, a) && ReaderOk(s, s.readers[id])
    requires !a.Query? && !a.BeginRead? && !a.ReadBytes? && !a.NextSegment? && !a.ReadData?
    ensures ReaderOk(s, Moved(s, id, a))
  {
    hide Core, PayloadOf, Matches, FilesOf, ReadSegment, SameFile, Untouched, Known;
  }

  lemma MovedOk(s: Conc, id: nat, a: ReaderAct)
    requires Core(s) && ReaderEnabled(s, id, a) && ReaderOk(s, s.readers[id])
    ensures ReaderOk(s, Moved(s, id, a))
  {
    var x := s.readers[id];
    hide Core, ReaderEnabled, ReaderOk, Moved;
    match a {
      case Query => QueryMovedOk(s, id);
      case BeginRead => BeginMovedOk(s, id);
      case ReadBytes(k) => BytesMovedOk(s, id, k, x);
      case NextSegment => NextMovedOk(s, id, x);
      case ReadData => DataMovedOk(s, id);
      case _ => PlainMovedOk(s, id, a);
    }
  }

  lemma SameCore(s: Conc, s': Conc)
    requires Core(s) && s'.run == s.run && s'.store == s.store && s'.index == s.index && s'.pc == s.pc
    requires |s'.counters| == |s.counters|
    ensures Core(s')
  {
  }

  lemma ReaderStepInv(s: Conc, id: nat, a: ReaderAct)
    requires SysInv(s) && ReaderEnabled(s, id, a)
    ensures SysInv(ReaderStep(s, id, a))
  {
    hide Core, Shape, LocksOk, CountersOk, ReaderOk, Moved, Relocked;
    var s' := ReaderStep(s, id, a);
    SameCore(s, s');
    ShapeOf(s');
    ReaderLocks(s, id, a);
    ReaderCounters(s, id, a);
    MovedOk(s, id, a);
    hide ReaderEnabled;
    forall i | i in s'.readers ensures ReaderOk(s', s'.readers[i]) {
      ReaderOkKept(s, s', s'.readers[i]);
    }
  }

  // ---- whole executions ----

  /** A new request comes in under a number not used before. */
  ghost function Arrived(s: Conc, id: nat, x: Reader): Conc {
    s.(readers := s.readers[id := x])
  }

  ghost predicate Next(s: Conc, s': Conc) {
    || (exists a: WriterAct :: Core(s) && Shape(s) && WriterEnabled(s, a) && s' == WriterStep(s, a))
    || (exists id: nat, a: ReaderAct :: Core(s) && ReaderEnabled(s, id, a) && s' == ReaderStep(s, id, a))
    || (exists id: nat, x: Reader :: id !in s.readers && (x.XStart? || x.SStart?) && s' == Arrived(s, id, x))
  }

  /** The writer at its receive loop, over any system satisfying the storage invariant, and no reader yet. */
  ghost predicate Init(s: Conc) {
    && Inv(s.run) && s.pc.Idle? && s.store == s.run.sys.store && s.index == s.run.sys.index
    && s.readers == map[] && |s.counters| == |s.run.turns| && (forall j :: 0 <= j < |s.counters| ==> s.counters[j] == 0)
    && s.indexLock == Lock(false, {}) && s.poolLock == Lock(false, {})
  }

  ghost predicate Execution(tr: seq<Conc>) {
    |tr| > 0 && Init(tr[0]) && forall i :: 0 <= i < |tr| - 1 ==> Next(tr[i], tr[i + 1])
  }

  lemma InitInv(s: Conc)
    requires Init(s)
    ensures SysInv(s)
  {
    InvIds(s.run);
    assert Core(s);
    ShapeOf(s);
    hide Core, Shape, Inv;
    forall j: nat | j < |s.counters| ensures Holders(s.readers, j) == {} {
    }
  }

  lemma ArrivedInv(s: Conc, id: nat, x: Reader)
    requires SysInv(s) && id !in s.readers && (x.XStart? || x.SStart?)
    ensures SysInv(Arrived(s, id, x))
  {
    hide Core, Shape, ReaderOk;
    var s' := Arrived(s, id, x);
    SameCore(s, s');
    ShapeOf(s');
    assert IndexReaders(s'.readers) == IndexReaders(s.readers);
    assert PoolReaders(s'.readers) == PoolReaders(s.readers);
    hide IndexReaders, PoolReaders;
    forall j: nat | j < |s.counters| ensures Holders(s'.readers, j) == Holders(s.readers, j) {
    }
    forall i | i in s'.readers ensures ReaderOk(s', s'.readers[i]) {
      if i == id {
        FreshReaderOk(s', x);
      } else {
        ReaderOkKept(s, s', s.readers[i]);
      }
    }
  }

  lemma FreshReaderOk(s: Conc, x: Reader)
    requires x.XStart? || x.SStart?
    ensures ReaderOk(s, x)
  {
  }

  lemma NextInv(s: Conc, s': Conc)
    requires SysInv(s) && Next(s, s')
    ensures SysInv(s')
  {
    hide SysInv, Core, Shape, WriterStep, ReaderStep, WriterEnabled, ReaderEnabled, Arrived;
    if a: WriterAct :| Core(s) && Shape(s) && WriterEnabled(s, a) && s' == WriterStep(s, a) {
      WriterStepInv(s, a);
    } else if id: nat, a: ReaderAct :| Core(s) && ReaderEnabled(s, id, a) && s' == ReaderStep(s, id, a) {
      ReaderStepInv(s, id, a);
    } else {
      var id: nat, x: Reader :| id !in s.readers && (x.XStart? || x.SStart?) && s' == Arrived(s, id, x);
      ArrivedInv(s, id, x);
    }
  }

  lemma {:induction false} ExecutionInv(tr: seq<Conc>, i: nat)
    requires Execution(tr) && i < |tr|
    ensures SysInv(tr[i])
  {
    hide SysInv, Next, Init;
    if i == 0 {
      InitInv(tr[0]);
    } else {
      ExecutionInv(tr, i - 1);
      NextInv(tr[i - 1], tr[i]);
    }
  }

  // ---- what holds in every interleaving ----

  /** Every segment an export has read is, byte for byte, the payload accepted for that entry: whatever the
      writer did meanwhile, also if a rotation gave up waiting, also though the guards come from an earlier
      query than the segments. While it reads, its segments are exactly the entries overlapping its range, in
      key order, and the segment being read is so far a prefix of its payload. */
  lemma ExportsAreExact(tr: seq<Conc>, i: nat, id: nat)
    requires Execution(tr) && i < |tr| && id in tr[i].readers
    ensures var s := tr[i];
            match s.readers[id]
            case XDropping(_, _, _, _, segs, outs, failed) => Exact(s, segs, outs) && (failed || |outs| == |segs|)
            case XReading(camera, from, to, _, segs, outs, part) =>
              && segs == InRange(s.index, camera, from, to) && Exact(s, segs, outs)
              && (|outs| < |segs| ==> part <= PayloadOf(s, segs[|outs|].id))
            case _ => true
  {
    ExecutionInv(tr, i);
    assert ReaderOk(tr[i], tr[i].readers[id]);
    hide Execution, Core, Shape, LocksOk, CountersOk, ReadersOk, Exact, PayloadOf;
  }

  /** A reader that has come to drop its guards was dropping or reading just before, with the same segments. */
  lemma BeforeDropping(s: Conc, s': Conc, id: nat)
    requires SysInv(s) && Next(s, s') && id in s'.readers && s'.readers[id].XDropping?
    ensures id in s.readers && (s.readers[id].XDropping? || s.readers[id].XReading?)
    ensures var x, x' := s.readers[id], s'.readers[id];
            x.camera == x'.camera && x.from == x'.from && x.to == x'.to && x.segs == x'.segs && x.outs == x'.outs
  {
    hide SysInv, Core, Shape, WriterStep, WriterEnabled, Arrived;
    if a: WriterAct :| Core(s) && Shape(s) && WriterEnabled(s, a) && s' == WriterStep(s, a) {
      HistoryKept(s, a);
    } else if n: nat, a: ReaderAct :| Core(s) && ReaderEnabled(s, n, a) && s' == ReaderStep(s, n, a) {
      hide ReadSegment, SameFile, Untouched, Matches, FilesOf, Addressable;
    } else {
      var n: nat, x: Reader :| n !in s.readers && (x.XStart? || x.SStart?) && s' == Arrived(s, n, x);
      ArrivedReaders(s, n, x);
    }
  }

  lemma ArrivedReaders(s: Conc, id: nat, x: Reader)
    ensures Arrived(s, id, x).readers == s.readers[id := x]
  {
  }

  /** The segments an export delivered, all of them unless a read failed, are those of a lookup made under the
      index lock it was still holding: at moment `k` they were exactly the entries overlapping its range. */
  lemma {:induction false} ExportLookup(tr: seq<Conc>, i: nat, id: nat) returns (k: nat)
    requires Execution(tr) && i < |tr| && id in tr[i].readers && tr[i].readers[id].XDropping?
    ensures var x := tr[i].readers[id];
            && k < i && id in tr[k].readers && tr[k].readers[id].XReading?
            && x.segs == InRange(tr[k].index, x.camera, x.from, x.to)
            && ListsRange(tr[k].index.entries, x.camera, x.from, x.to, x.segs)
            && Exact(tr[i], x.segs, x.outs) && (x.failed || |x.outs| == |x.segs|)
  {
    hide SysInv, Next, Init, Exact, InRange, ListsRange;
    ExportsAreExact(tr, i, id);
    if i == 0 {
      NoReadersYet(tr[0]);
      assert false;
    } else {
      ExecutionInv(tr, i - 1);
      BeforeDropping(tr[i - 1], tr[i], id);
      if tr[i - 1].readers[id].XReading? {
        k := i - 1;
        ExportsAreExact(tr, k, id);
        InRangeListsRange(tr[k].index, tr[k].readers[id].camera, tr[k].readers[id].from, tr[k].readers[id].to);
      } else {
        k := ExportLookup(tr, i - 1, id);
      }
    }
  }

  lemma NoReadersYet(s: Conc)
    requires Init(s)
    ensures s.readers == map[]
  {
  }

  /** A segment request that read while the file still carried the pool id of its (possibly old) lookup has
      exactly the payload accepted under the id it was asked for, of the camera it was asked for. */
  lemma SegmentsAreExact(tr: seq<Conc>, i: nat, id: nat)
    requires Execution(tr) && i < |tr| && id in tr[i].readers && tr[i].readers[id].SDone?
    ensures var x := tr[i].readers[id];
            && Known(tr[i], x.meta) && x.meta.camera == x.camera && x.meta.id == x.segId
            && (x.seen.same ==> x.seen.data == Some(PayloadOf(tr[i], x.segId)))
  {
    ExecutionInv(tr, i);
    assert ReaderOk(tr[i], tr[i].readers[id]);
    hide Execution, Core, Shape, LocksOk, CountersOk, ReadersOk, Known, PayloadOf;
  }

  /** The entry a segment request works with, if it found one. */
  predicate Answered(x: Reader) {
    x.SMissing? || x.SFound? || x.SLocked? || x.SGuarded? || x.SRead? || x.SReleased? || x.SDone?
  }

  /** What the index said about the request: its entry, or that there is none. */
  ghost predicate AnswerOf(entries: seq<Meta>, x: Reader)
    requires Answered(x)
  {
    if x.SMissing? then forall m :: m in entries ==> m.camera != x.camera || m.id != x.segId
    else x.meta in entries && x.meta.camera == x.camera && x.meta.id == x.segId
  }

  lemma BeforeAnswered(s: Conc, s': Conc, id: nat)
    requires SysInv(s) && Next(s, s') && id in s'.readers && Answered(s'.readers[id])
    ensures id in s.readers
    ensures var x, x' := s.readers[id], s'.readers[id];
            || (x.SStart? && !s.indexLock.writer && AnswerOf(s.index.entries, x'))
            || (Answered(x) && x.SMissing? == x'.SMissing? && x.camera == x'.camera && x.segId == x'.segId
                && (!x.SMissing? ==> x.meta == x'.meta))
  {
    hide SysInv, Core, Shape, WriterStep, WriterEnabled, Arrived;
    if a: WriterAct :| Core(s) && Shape(s) && WriterEnabled(s, a) && s' == WriterStep(s, a) {
      HistoryKept(s, a);
    } else if n: nat, a: ReaderAct :| Core(s) && ReaderEnabled(s, n, a) && s' == ReaderStep(s, n, a) {
      hide ReadSegment, SameFile, Untouched, Matches, FilesOf, Addressable;
    } else {
      var n: nat, x: Reader :| n !in s.readers && (x.XStart? || x.SStart?) && s' == Arrived(s, n, x);
      ArrivedReaders(s, n, x);
    }
  }

  /** A segment request is told that there is no such segment, or given an entry, as the index had it at one
      moment of its run, while no writer held the index lock. */
  lemma {:induction false} SegmentLookup(tr: seq<Conc>, i: nat, id: nat) returns (k: nat)
    requires Execution(tr) && i < |tr| && id in tr[i].readers && Answered(tr[i].readers[id])
    ensures k < i && id in tr[k].readers && tr[k].readers[id].SStart? && !tr[k].indexLock.writer
    ensures AnswerOf(tr[k].index.entries, tr[i].readers[id])
  {
    hide SysInv, Next, Init;
    if i == 0 {
      NoReadersYet(tr[0]);
      assert false;
    } else {
      ExecutionInv(tr, i - 1);
      BeforeAnswered(tr[i - 1], tr[i], id);
      if tr[i - 1].readers[id].SStart? {
        k := i - 1;
      } else {
        k := SegmentLookup(tr, i - 1, id);
      }
    }
  }

  lemma GuardsCounted(s: Conc)
    requires CountersOk(s) && ReadersOk(s)
    ensures forall id, j :: id in s.readers && j in GuardsOf(s.readers[id]) ==>
              0 <= j < |s.counters| && s.counters[j] > 0
    ensures forall id :: id in s.readers && (s.readers[id].SGuarded? || s.readers[id].SRead?) ==>
              s.readers[id].meta.loc.poolIdx in GuardsOf(s.readers[id])
    ensures forall id :: id in s.readers && GuardsOf(s.readers[id]) != {} && !HoldsPool(s.readers[id]) ==>
              var x := s.readers[id]; x.XQuery? || x.XGuarded? || x.XReading? || x.XDropping?
  {
    forall id, j | id in s.readers && j in GuardsOf(s.readers[id]) ensures 0 <= j < |s.counters| && s.counters[j] > 0 {
      IsOk(s, id);
      assert id in Holders(s.readers, j);
    }
  }

  lemma PollsBound(s: Conc)
    requires Core(s)
    ensures s.pc.Waiting? ==> s.pc.polls <= 50
  {
    hide Inv, Valid;
  }

  /** Each counter is the number of live guards on its file, so releasing a guard never underflows; the locks
      exclude each other; and while the writer holds the pool lock, that is, from the start of an append over the
      wait and the header of a rotation to its end, no segment request holds a guard: what a rotation waits for,
      or gives up waiting for after at most 50 polls, are exports. */
  lemma CountersAndWaiting(tr: seq<Conc>, i: nat)
    requires Execution(tr) && i < |tr|
    ensures var s := tr[i];
            && (forall j: nat :: j < |s.counters| ==> s.counters[j] == |Holders(s.readers, j)|)
            && (forall id, j :: id in s.readers && j in GuardsOf(s.readers[id]) ==>
                  0 <= j < |s.counters| && s.counters[j] > 0)
            && (forall id :: id in s.readers && (s.readers[id].SGuarded? || s.readers[id].SRead?) ==>
                  s.readers[id].meta.loc.poolIdx in GuardsOf(s.readers[id]))
            && (s.indexLock.writer ==> s.indexLock.readers == {}) && (s.poolLock.writer ==> s.poolLock.readers == {})
            && (s.pc.Waiting? ==> s.pc.polls <= 50)
            && (s.pc.Appending? || s.pc.Waiting? || s.pc.HeaderOut? || s.pc.RecordOut? ==>
                  forall id :: id in s.readers && GuardsOf(s.readers[id]) != {} ==>
                    var x := s.readers[id]; x.XQuery? || x.XGuarded? || x.XReading? || x.XDropping?)
  {
    hide Execution, Shape, Core;
    ExecutionInv(tr, i);
    var s := tr[i];
    GuardsCounted(s);
    PollsBound(s);
    hide ReadersOk, GuardsOf;
    if WriterHoldsPool(s.pc) {
      forall id | id in s.readers ensures !HoldsPool(s.readers[id]) {
        assert id !in s.poolLock.readers;
      }
    }
  }

  /** The bytes of the files change only while the writer holds the pool lock, so not under a segment request. */
  lemma PoolLockFreezesFiles(s: Conc, s': Conc)
    requires SysInv(s) && Next(s, s') && s.poolLock.readers != {}
    ensures s'.store == s.store
  {
    hide CountersOk, ReadersOk, Inv, Valid, IndexReaders, PoolReaders, RunStep, Moved, ReaderEnabled;
    assert !WriterHoldsPool(s.pc);
  }

  /** In every interleaving the atomic model only moves by whole iterations of the writer ... */
  lemma NextRun(s: Conc, s': Conc) returns (ops: seq<Op>)
    requires SysInv(s) && Next(s, s')
    ensures Valid(s.run.sys.store) && Sized(s.run) && s'.run == RunAll(s.run, ops)
  {
    hide CountersOk, ReadersOk, LocksOk, Inv, Valid, RunStep, Moved, ReaderEnabled, IndexModel.Evict, IndexModel.Insert,
      EncodeRecord, Push, PoolHeader, CoreAt;
    if s'.run == s.run {
      ops := [];
    } else {
      var a: WriterAct :| Core(s) && Shape(s) && WriterEnabled(s, a) && s' == WriterStep(s, a);
      var op :| s'.run == RunStep(s.run, op);
      ops := [op];
      assert ops[..0] == [];
    }
  }

  lemma IdleIsRun(s: Conc)
    requires Core(s)
    ensures Valid(s.run.sys.store) && Sized(s.run)
    ensures s.pc.Idle? ==> Sys(s.store, s.index) == s.run.sys
  {
  }

  /** ... and whenever the writer is back at its receive loop, the shared store and index are exactly what some
      sequence of those iterations, run alone, makes of the initial ones. Everything proved about runs of the
      writer therefore holds at every loop head of every interleaving. */
  lemma {:induction false} LoopHeadsAreRuns(tr: seq<Conc>, i: nat) returns (ops: seq<Op>)
    requires Execution(tr) && i < |tr|
    ensures Valid(tr[0].run.sys.store) && Sized(tr[0].run)
    ensures tr[i].run == RunAll(tr[0].run, ops)
    ensures tr[i].pc.Idle? ==> Sys(tr[i].store, tr[i].index) == RunAll(tr[0].run, ops).sys
  {
    ExecutionInv(tr, i);
    ExecutionInv(tr, 0);
    IdleIsRun(tr[i]);
    IdleIsRun(tr[0]);
    hide Core, Shape, LocksOk, CountersOk, ReadersOk, Next;
    if i == 0 {
      ops := [];
    } else {
      var before := LoopHeadsAreRuns(tr, i - 1);
      ExecutionInv(tr, i - 1);
      var more := NextRun(tr[i - 1], tr[i]);
      RunAllConcat(tr[0].run, before, more);
      ops := before + more;
    }
  }

  // ---- no deadlock ----

  datatype Move = ByWriter(a: WriterAct) | ByReader(id: nat, x: ReaderAct)

  /** A move that is possible now and is neither somebody giving up nor a new request coming in. */
  ghost predicate Possible(s: Conc, m: Move) {
    match m
    case ByWriter(a) => WriterEnabled(s, a) && !a.HeaderFails? && !a.RecordFails? && !a.Receive?
    case ByReader(id, x) => ReaderEnabled(s, id, x) && !x.Abort?
  }

  predicate Unfinished(x: Reader) {
    !x.SMissing? && !x.SDone? && (x.XDropping? ==> x.guards != {})
  }

  lemma ExportMoves(s: Conc, id: nat) returns (m: Move)
    requires SysInv(s) && id in s.readers && HoldsIndex(s.readers[id])
    ensures Possible(s, m) && m.ByReader?
  {
    hide CountersOk, LocksOk, ReadersOk, Shape, Core, PayloadOf, Matches, Known;
    var x := s.readers[id];
    IsOk(s, id);
    if x.XQuery? {
      if x.todo == {} {
        m := ByReader(id, EndQuery);
      } else {
        var j :| j in x.todo;
        m := ByReader(id, AcquireGuard(j));
      }
    } else if |x.outs| < |x.segs| {
      var e := x.segs[|x.outs|];
      ReadContinues(s, e, DataLen(e), DataLen(e));
      m := ByReader(id, if |x.part| < DataLen(e) then ReadBytes(DataLen(e)) else NextSegment);
    } else {
      m := ByReader(id, EndRead);
    }
  }

  lemma CoreSizes(s: Conc)
    requires Core(s)
    ensures |s.counters| == |s.store.slots|
  {
    SharedStore(s);
    hide Core;
  }

  lemma SegmentRequestMoves(s: Conc, id: nat) returns (m: Move)
    requires SysInv(s) && id in s.readers && HoldsPool(s.readers[id])
    ensures Possible(s, m) && m.ByReader?
  {
    hide Core, LocksOk, ReadersOk, Shape, ReadSegment, SameFile;
    var x := s.readers[id];
    IsOk(s, id);
    SameIdSameBytes(s, x.meta.id);
    CoreSizes(s);
    hide ReaderOk;
    var j := x.meta.loc.poolIdx;
    assert x.SRead? ==> id in Holders(s.readers, j);
    m := ByReader(id, if x.SLocked? then AcquireGuard(j) else if x.SGuarded? then ReadData
                      else if x.SRead? then DropGuard(j) else UnlockPool);
  }

  lemma WriterTakesIndex(s: Conc) returns (m: Move)
    requires SysInv(s) && ((s.pc.Checked? && s.pc.full) || s.pc.Written?)
    ensures Possible(s, m)
  {
    hide CountersOk, ReadersOk, Shape, Core;
    if s.indexLock.readers != {} {
      var id :| id in s.indexLock.readers;
      m := ExportMoves(s, id);
    } else {
      m := ByWriter(TakeIndex);
    }
  }

  lemma WriterTakesPool(s: Conc) returns (m: Move)
    requires SysInv(s) && s.pc.Ready?
    ensures Possible(s, m)
  {
    hide CountersOk, ReadersOk, Shape, Core;
    if s.poolLock.readers != {} {
      var id :| id in s.poolLock.readers;
      m := SegmentRequestMoves(s, id);
    } else {
      m := ByWriter(TakePool);
    }
  }

  lemma ProgressBounds(s: Conc)
    requires Core(s)
    ensures s.pc.HeaderOut? ==> s.pc.done < POOL_HEADER
    ensures s.pc.RecordOut? ==> s.pc.done <= RecordSize(s.pc.q)
  {
    hide Inv, Valid;
  }

  lemma WriterMovesAlone(s: Conc) returns (a: WriterAct)
    requires s.pc.HeaderOut? ==> s.pc.done < POOL_HEADER
    requires s.pc.RecordOut? ==> s.pc.done <= RecordSize(s.pc.q)
    requires !s.pc.Idle? && !s.pc.Ready? && !s.pc.Written? && (s.pc.Checked? ==> !s.pc.full)
    ensures WriterEnabled(s, a) && !a.HeaderFails? && !a.RecordFails? && !a.Receive?
  {
    hide RecordSize, Free;
    match s.pc {
      case Checked(_, _) => a := SkipEvict;
      case Evicting(_) => a := Evict;
      case Appending(_) => a := BeginAppend(0);
      case Waiting(_, _) => a := Poll(0);
      case HeaderOut(_, _, _) => a := HeaderBytes(POOL_HEADER);
      case RecordOut(q, _, done) => a := if done < RecordSize(q) then RecordBytes(RecordSize(q)) else FinishAppend;
      case Inserting(_, _, _) => a := Insert;
    }
  }

  lemma WriterMoves(s: Conc) returns (m: Move)
    requires SysInv(s) && !s.pc.Idle?
    ensures Possible(s, m)
  {
    ProgressBounds(s);
    hide SysInv, Core, WriterEnabled;
    if (s.pc.Checked? && s.pc.full) || s.pc.Written? {
      m := WriterTakesIndex(s);
    } else if s.pc.Ready? {
      m := WriterTakesPool(s);
    } else {
      var a := WriterMovesAlone(s);
      m := ByWriter(a);
    }
  }

  lemma IdleReaderMoves(s: Conc, id: nat) returns (m: Move)
    requires SysInv(s) && s.pc.Idle? && id in s.readers && Unfinished(s.readers[id])
    ensures Possible(s, m) && m.ByReader?
  {
    var x := s.readers[id];
    if HoldsIndex(x) {
      m := ExportMoves(s, id);
    } else if HoldsPool(x) {
      m := SegmentRequestMoves(s, id);
    } else if x.XDropping? {
      var j :| j in x.guards;
      assert ReaderOk(s, x);
      assert id in Holders(s.readers, j);
      hide Core, ReadersOk, Shape, ReaderOk;
      m := ByReader(id, DropGuard(j));
    } else {
      hide Core, ReadersOk, Shape, ReaderOk, CountersOk;
      m := ByReader(id, if x.XGuarded? then BeginRead else if x.SFound? then LockPool else Query);
    }
  }

  /** The two locks and the bounded wait never deadlock: as long as the writer is serving a request or some
      reader is unfinished, somebody can move on without giving up. */
  lemma NoDeadlock(tr: seq<Conc>, i: nat) returns (m: Move)
    requires Execution(tr) && i < |tr|
    requires !tr[i].pc.Idle? || exists id :: id in tr[i].readers && Unfinished(tr[i].readers[id])
    ensures Possible(tr[i], m) && (tr[i].pc.Idle? ==> m.ByReader?)
  {
    ExecutionInv(tr, i);
    hide SysInv, Execution, Possible;
    if tr[i].pc.Idle? {
      var id :| id in tr[i].readers && Unfinished(tr[i].readers[id]);
      m := IdleReaderMoves(tr[i], id);
    } else {
      m := WriterMoves(tr[i]);
    }
  }
}
