/** Segment requests that read long after their lookup: in every interleaving they return the payload they were
    asked for exactly when no later pass has gone over it, and whatever the writer alone can do in between can
    happen to them. */
module StaleRequests {
  import opened Bytes
  import opened RecordFormat
  import opened PoolModel
  import opened IndexModel
  import opened Sorting
  import opened WriterModel
  import opened Recovery
  import opened RingHistory
  import opened ScanRoundTrip
  import opened StaleReads
  import opened Protocol
  import opened Readers

  // ---- the exact condition ----

  ghost predicate IteratesTo(r: Run, r': Run)
    requires Valid(r.sys.store) && Sized(r)
  {
    exists op: Op :: r' == RunStep(r, op)
  }

  /** A writer step either leaves the atomic model alone or takes one of its iterations. */
  lemma WriterRun(s: Conc, a: WriterAct)
    requires Core(s) && Shape(s) && WriterEnabled(s, a)
    ensures WriterStep(s, a).run == s.run || IteratesTo(s.run, WriterStep(s, a).run)
  {
    hide Core, EncodeRecord, PoolHeader, Push, IndexModel.Evict, IndexModel.Insert, Rotate, WriteRecord, Valid, RunStep,
      Full, NextIdx;
  }

  lemma NextTraced(s: Conc, s': Conc)
    requires SysInv(s) && Next(s, s') && Traced(s.run)
    ensures Traced(s'.run)
  {
    hide SysInv, Core, Shape, WriterStep, WriterEnabled, ReaderEnabled, Traced, RunStep, Moved;
    if a: WriterAct :| Core(s) && Shape(s) && WriterEnabled(s, a) && s' == WriterStep(s, a) {
      WriterRun(s, a);
      IdleIsRun(s);
      if s'.run != s.run {
        var op: Op :| s'.run == RunStep(s.run, op);
        RunStepTraced(s.run, op);
      }
    }
  }

  /** While no append is under way, the shared store is that of a run. */
  lemma MidTraced(s: Conc)
    requires Core(s) && Traced(s.run) && !WriterHoldsPool(s.pc)
    ensures Traced(Mid(s))
  {
    hide Traced, Rotated, Recorded, Evicted, Full, Base, Prepared, CoreAt;
    match s.pc {
      case Ready(q) => PreparedTraced(s.run, q);
      case Written(q, now, loc) => WrittenTraced(s, q, now);
      case Inserting(q, now, loc) => WrittenTraced(s, q, now);
      case _ =>
    }
  }

  lemma PreparedTraced(r: Run, q: Request)
    requires Traced(r) && Valid(r.sys.store) && Sized(r)
    ensures Traced(Prepared(r, q))
  {
    hide Traced, Evicted;
    if Full(r.sys.store, RecordSize(q)) {
      EvictedTraced(r);
    }
  }

  lemma WrittenTraced(s: Conc, q: Request, now: Instant)
    requires Core(s) && (s.pc.Written? || s.pc.Inserting?) && q == s.pc.q && now == s.pc.now && Traced(s.run)
    ensures RecordSize(q) <= s.run.sys.store.capacity && Traced(Recorded(Base(s.run, q, now), q, Done))
  {
    hide Inv, Ids, UsedIsLog, BytesTraced, Layered, Rotated, Recorded, Evicted, Valid, Mid;
    RecordPoint(s, q, now, Done);
    hide Core;
    BaseTraced(s.run, q, now);
    var b := Base(s.run, q, now);
    RecordedInv(b, q, Done);
    InvIds(Recorded(b, q, Done));
    RecordedLog(b, q, Done);
    RecordedTail(b, q, Done);
    RecordedTraced(b, q, Done);
  }

  lemma BaseTraced(r: Run, q: Request, now: Instant)
    requires Traced(r) && Valid(r.sys.store) && Sized(r) && RecordSize(q) <= r.sys.store.capacity
    ensures Traced(Base(r, q, now))
  {
    hide Traced, Rotated, IndexModel.Evict;
    if Full(r.sys.store, RecordSize(q)) {
      EvictedTraced(r);
      TurnedTraced(Evicted(r), now, Done);
    }
  }

  /** What a request has seen is its payload exactly if it saw it intact. */
  ghost predicate SeenExact(s: Conc, x: Reader) {
    x.SRead? || x.SReleased? || x.SDone? ==> (x.seen.data == Some(PayloadOf(s, x.meta.id)) <==> x.seen.intact)
  }

  ghost predicate AllSeenExact(s: Conc) {
    forall id :: id in s.readers ==> SeenExact(s, s.readers[id])
  }

  /** The read itself. */
  lemma LookExact(s: Conc, id: nat)
    requires SysInv(s) && Traced(s.run) && ReaderEnabled(s, id, ReadData)
    ensures SeenExact(s, Moved(s, id, ReadData))
  {
    hide Shape, CountersOk, Traced, PayloadOf, CoreAt, Unharmed, Known;
    IsOk(s, id);
    var x := s.readers[id];
    assert id in s.poolLock.readers;
    MidTraced(s);
    SharedStore(s);
    assert Known(s, x.meta);
    LookIff(s, x.meta);
  }

  lemma LookIff(s: Conc, meta: Meta)
    requires Core(s) && Traced(Mid(s)) && Reflects(s, Mid(s)) && Known(s, meta) && Addressable(s.store, meta.loc)
    ensures Look(s, meta).data == Some(PayloadOf(s, meta.id)) <==> Look(s, meta).intact
  {
    hide Core, Mid, Inv, Ids, UsedIsLog, BytesTraced, Layered, Unharmed, SameFile;
    StaleReadIff(Mid(s), meta.id);
    assert Mid(s).hist[meta.id] == s.run.hist[meta.id];
  }

  /** What was seen stays seen. */
  lemma SeenKept(s: Conc, s': Conc, x: Reader)
    requires ReaderOk(s, x) && s.run.hist <= s'.run.hist && SeenExact(s, x)
    ensures SeenExact(s', x)
  {
    if x.SRead? || x.SReleased? || x.SDone? {
      assert Known(s, x.meta);
      assert s'.run.hist[x.meta.id] == s.run.hist[x.meta.id];
    }
  }

  lemma MovedSeen(s: Conc, id: nat, a: ReaderAct)
    requires SysInv(s) && Traced(s.run) && ReaderEnabled(s, id, a) && SeenExact(s, s.readers[id])
    ensures SeenExact(s, Moved(s, id, a))
  {
    if a.ReadData? {
      LookExact(s, id);
    } else {
      hide SysInv, Traced, Matches, FilesOf, PayloadOf, Look, Addressable;
    }
  }

  lemma NextSeen(s: Conc, s': Conc)
    requires SysInv(s) && Next(s, s') && Traced(s.run) && AllSeenExact(s)
    ensures AllSeenExact(s')
  {
    hide Core, Shape, LocksOk, CountersOk, ReaderOk, WriterStep, WriterEnabled, ReaderEnabled, Traced, Moved, SeenExact,
      Arrived, Relocked, Recounted;
    if a: WriterAct :| Core(s) && Shape(s) && WriterEnabled(s, a) && s' == WriterStep(s, a) {
      HistoryKept(s, a);
      forall n | n in s'.readers ensures SeenExact(s', s'.readers[n]) {
        SeenKept(s, s', s.readers[n]);
      }
    } else if id: nat, a: ReaderAct :| Core(s) && ReaderEnabled(s, id, a) && s' == ReaderStep(s, id, a) {
      ReaderIn(s, id, a);
      MovedSeen(s, id, a);
      forall n | n in s'.readers ensures SeenExact(s', s'.readers[n]) {
        SameRunSeen(s, s', s'.readers[n]);
      }
    } else {
      var id: nat, x: Reader :| id !in s.readers && (x.XStart? || x.SStart?) && s' == Arrived(s, id, x);
      ArrivedShape(s, id, x);
      forall n | n in s'.readers ensures SeenExact(s', s'.readers[n]) {
        if n != id {
          SameRunSeen(s, s', s.readers[n]);
        } else {
          NothingSeen(s', x);
        }
      }
    }
  }

  lemma ReaderIn(s: Conc, id: nat, a: ReaderAct)
    requires ReaderEnabled(s, id, a)
    ensures id in s.readers
  {
  }

  lemma ArrivedShape(s: Conc, id: nat, x: Reader)
    ensures Arrived(s, id, x).readers == s.readers[id := x] && Arrived(s, id, x).run == s.run
  {
  }

  lemma NothingSeen(s: Conc, x: Reader)
    requires x.XStart? || x.SStart?
    ensures SeenExact(s, x)
  {
  }

  lemma SameRunSeen(s: Conc, s': Conc, x: Reader)
    requires s'.run == s.run && SeenExact(s, x)
    ensures SeenExact(s', x)
  {
  }

  lemma {:induction false} ExecutionSeen(tr: seq<Conc>, i: nat)
    requires Execution(tr) && i < |tr| && Traced(tr[0].run)
    ensures Traced(tr[i].run) && AllSeenExact(tr[i])
  {
    hide SysInv, Next, Traced, Init, AllSeenExact;
    if i == 0 {
      NoReadersSeen(tr[0]);
    } else {
      ExecutionSeen(tr, i - 1);
      ExecutionInv(tr, i - 1);
      NextTraced(tr[i - 1], tr[i]);
      NextSeen(tr[i - 1], tr[i]);
    }
  }

  lemma NoReadersSeen(s: Conc)
    requires Init(s)
    ensures AllSeenExact(s)
  {
  }

  /** In every interleaving, whatever fails: the data a finished segment request returns is the payload it was
      asked for if and only if, when it read, no later pass of the file had put other bytes over that payload.
      (`StaleReads.UnharmedOnce` says when that is after one rotation.) */
  lemma SegmentsExactIff(tr: seq<Conc>, i: nat, id: nat)
    requires Execution(tr) && Traced(tr[0].run)
    requires i < |tr| && id in tr[i].readers && tr[i].readers[id].SDone?
    ensures var x := tr[i].readers[id];
            x.seen.data == Some(PayloadOf(tr[i], x.segId)) <==> x.seen.intact
  {
    hide Execution, Known, PayloadOf, Traced;
    ExecutionSeen(tr, i);
    SegmentsAreExact(tr, i, id);
    assert SeenExact(tr[i], tr[i].readers[id]);
  }

  /** So in every execution that begins at any loop head after a restart from any disk. */
  lemma RestartedSegmentsExactIff(s: Store, now: Instant, ops: seq<Op>, tr: seq<Conc>, i: nat, id: nat)
    requires Valid(s) && UsedAsScanned(s, now) && Execution(tr) && tr[0].run == RunAll(Start(s, now), ops)
    requires i < |tr| && id in tr[i].readers && tr[i].readers[id].SDone?
    ensures var x := tr[i].readers[id];
            x.seen.data == Some(PayloadOf(tr[i], x.segId)) <==> x.seen.intact
  {
    hide Start, Traced, Execution, RunAll, UsedAsScanned, PayloadOf;
    StartTraced(s, now);
    RunAllTraced(Start(s, now), ops);
    SegmentsExactIff(tr, i, id);
  }

  // ---- what a request has seen, it saw at one moment ----

  lemma BeforeSeen(s: Conc, s': Conc, id: nat)
    requires SysInv(s) && Next(s, s') && id in s'.readers
    requires s'.readers[id].SRead? || s'.readers[id].SReleased? || s'.readers[id].SDone?
    ensures id in s.readers
    ensures var x, x' := s.readers[id], s'.readers[id];
            if x.SGuarded? then
              Core(s) && Addressable(s.store, x.meta.loc)
              && x' == SRead(x.camera, x.segId, x.meta, Look(s, x.meta))
            else
              (x.SRead? || x.SReleased? || x.SDone?)
              && x'.camera == x.camera && x'.segId == x.segId && x'.meta == x.meta && x'.seen == x.seen
  {
    hide SysInv, Core, Shape, WriterStep, WriterEnabled, Arrived, Look;
    if a: WriterAct :| Core(s) && Shape(s) && WriterEnabled(s, a) && s' == WriterStep(s, a) {
      HistoryKept(s, a);
    } else if n: nat, a: ReaderAct :| Core(s) && ReaderEnabled(s, n, a) && s' == ReaderStep(s, n, a) {
      hide ReadSegment, Matches, FilesOf, Addressable;
    } else {
      var n: nat, x: Reader :| n !in s.readers && (x.XStart? || x.SStart?) && s' == Arrived(s, n, x);
      ArrivedShape(s, n, x);
    }
  }

  /** A finished request has read at some moment `k`, under the pool lock: its data is what its location held
      then, and `same` and `intact` say what was true of the file then. */
  lemma {:induction false} RequestLook(tr: seq<Conc>, i: nat, id: nat) returns (k: nat)
    requires Execution(tr) && i < |tr| && id in tr[i].readers
    requires tr[i].readers[id].SRead? || tr[i].readers[id].SReleased? || tr[i].readers[id].SDone?
    ensures var x := tr[i].readers[id];
            && k < i && SysInv(tr[k]) && id in tr[k].readers && tr[k].readers[id] == SGuarded(x.camera, x.segId, x.meta)
            && Addressable(tr[k].store, x.meta.loc) && x.seen == Look(tr[k], x.meta)
  {
    hide SysInv, Next, Init, Look, Addressable;
    if i == 0 {
      NoReadersYet(tr[0]);
      assert false;
    } else {
      ExecutionInv(tr, i - 1);
      BeforeSeen(tr[i - 1], tr[i], id);
      if tr[i - 1].readers[id].SGuarded? {
        k := i - 1;
      } else {
        k := RequestLook(tr, i - 1, id);
      }
    }
  }

  // ---- serving requests while a reader waits ----

  /** Nobody reads, holds a lock or a guard. */
  ghost predicate Quiet(s: Conc) {
    forall id :: id in s.readers ==>
      !HoldsIndex(s.readers[id]) && !HoldsPool(s.readers[id]) && GuardsOf(s.readers[id]) == {}
  }

  ghost predicate Steps(tr: seq<Conc>) {
    forall i :: 0 <= i < |tr| - 1 ==> Next(tr[i], tr[i + 1])
  }

  /** `tr` leads from `s` to `t`. */
  ghost predicate Leads(tr: seq<Conc>, s: Conc, t: Conc) {
    tr != [] && tr[0] == s && tr[|tr| - 1] == t && Steps(tr)
  }

  /** One after the other; the second begins where the first ends. */
  function Then(a: seq<Conc>, b: seq<Conc>): seq<Conc> {
    if b == [] then a else a + b[1..]
  }

  lemma LeadsOn(a: seq<Conc>, b: seq<Conc>, s: Conc, t: Conc, u: Conc)
    requires Leads(a, s, t) && Leads(b, t, u)
    ensures Leads(Then(a, b), s, u)
  {
    hide Next;
    var tr := Then(a, b);
    forall i | 0 <= i < |tr| - 1 ensures Next(tr[i], tr[i + 1]) {
      if i < |a| - 1 {
        assert tr[i] == a[i] && tr[i + 1] == a[i + 1];
      } else {
        assert tr[i] == b[i - |a| + 1] && tr[i + 1] == b[i - |a| + 2];
      }
    }
    if |b| == 1 {
      assert tr == a;
    }
  }

  /** A quiet step of the writer. */
  lemma Act(s: Conc, a: WriterAct) returns (tr: seq<Conc>)
    requires SysInv(s) && Quiet(s) && WriterEnabled(s, a)
    ensures Core(s) && Shape(s)
    ensures var t := WriterStep(s, a);
            SysInv(t) && Quiet(t) && t.readers == s.readers && t.counters == s.counters && Leads(tr, s, t)
  {
    assert Core(s) && Shape(s);
    hide Core, Shape, WriterEnabled, LocksOk, CountersOk, ReadersOk;
    WriterStepInv(s, a);
    HistoryKept(s, a);
    hide SysInv, WriterStep;
    assert Next(s, WriterStep(s, a));
    tr := [s, WriterStep(s, a)];
  }

  lemma QuietLocks(s: Conc)
    requires SysInv(s) && Quiet(s)
    ensures s.indexLock == Lock(WriterHoldsIndex(s.pc), {}) && s.poolLock == Lock(WriterHoldsPool(s.pc), {})
    ensures forall j: nat :: j < |s.counters| ==> s.counters[j] == 0
  {
    hide Core, Shape, ReadersOk;
    assert IndexReaders(s.readers) == {} && PoolReaders(s.readers) == {};
    forall j: nat | j < |s.counters| ensures s.counters[j] == 0 {
      assert Holders(s.readers, j) == {};
    }
  }

  /** From the receive loop to the point before the append. */
  lemma LeadsToReady(s: Conc, q: Request) returns (tr: seq<Conc>, t: Conc)
    requires SysInv(s) && Quiet(s) && s.pc.Idle?
    ensures SysInv(t) && Quiet(t) && t.readers == s.readers && t.run == s.run && t.pc == Ready(q) && Leads(tr, s, t)
  {
    hide SysInv, Quiet, Leads, Then, Core, Shape, Full, IndexModel.Evict;
    QuietLocks(s);
    tr := Act(s, Receive(q));
    t := WriterStep(s, Receive(q));
    QuietLocks(t);
    if t.pc.full {
      var tr1 := Act(t, TakeIndex);
      var t1 := WriterStep(t, TakeIndex);
      var tr2 := Act(t1, Evict);
      var t2 := WriterStep(t1, Evict);
      LeadsOn(tr, tr1, s, t, t1);
      LeadsOn(Then(tr, tr1), tr2, s, t1, t2);
      tr, t := Then(Then(tr, tr1), tr2), t2;
    } else {
      var tr1 := Act(t, SkipEvict);
      var t1 := WriterStep(t, SkipEvict);
      LeadsOn(tr, tr1, s, t, t1);
      tr, t := Then(tr, tr1), t1;
    }
  }

  /** From before the append into it. */
  lemma LeadsToAppend(s: Conc, q: Request, now: Instant) returns (tr: seq<Conc>, t: Conc)
    requires SysInv(s) && Quiet(s) && s.pc == Ready(q)
    ensures SysInv(t) && Quiet(t) && t.readers == s.readers && Leads(tr, s, t)
    ensures Valid(s.run.sys.store) && Sized(s.run)
    ensures if RecordSize(q) > s.run.sys.store.capacity
            then t.pc.Idle? && t.run == RunStep(s.run, Op(q, Env(now, Done, Done)))
            else t.run == s.run && t.pc == RecordOut(q, now, 0)
  {
    hide SysInv, Quiet, Leads, Then, Core, Shape, Full, Push, PoolHeader, RunStep;
    IdleAt(s);
    QuietLocks(s);
    tr := Act(s, TakePool);
    t := WriterStep(s, TakePool);
    var tr1 := Act(t, BeginAppend(now));
    var t1 := WriterStep(t, BeginAppend(now));
    LeadsOn(tr, tr1, s, t, t1);
    tr, t := Then(tr, tr1), t1;
    if t.pc.Waiting? {
      QuietLocks(t);
      ShapeIndex(t);
      var tr2 := Act(t, Poll(now));
      var t2 := WriterStep(t, Poll(now));
      var tr3 := Act(t2, HeaderBytes(POOL_HEADER));
      var t3 := WriterStep(t2, HeaderBytes(POOL_HEADER));
      LeadsOn(tr, tr2, s, t, t2);
      LeadsOn(Then(tr, tr2), tr3, s, t2, t3);
      tr, t := Then(Then(tr, tr2), tr3), t3;
    }
  }

  lemma IdleAt(s: Conc)
    requires SysInv(s) && s.pc.Ready?
    ensures Valid(s.run.sys.store) && Sized(s.run) && s.store == s.run.sys.store
  {
    hide Inv, Valid;
  }

  lemma ShapeIndex(s: Conc)
    requires SysInv(s)
    ensures s.store.writeIdx < |s.counters|
  {
    hide Core, LocksOk, CountersOk, ReadersOk;
  }

  /** From the record write back to the receive loop. */
  lemma LeadsToIdle(s: Conc, q: Request, now: Instant) returns (tr: seq<Conc>, t: Conc)
    requires SysInv(s) && Quiet(s) && s.pc == RecordOut(q, now, 0)
    ensures SysInv(t) && Quiet(t) && t.readers == s.readers && Leads(tr, s, t) && t.pc.Idle?
    ensures Valid(s.run.sys.store) && Sized(s.run) && t.run == RunStep(s.run, Op(q, Env(now, Done, Done)))
  {
    hide SysInv, Quiet, Leads, Then, Core, Shape, Push, EncodeRecord, RunStep, IndexModel.Insert;
    IdleIsRunInv(s);
    tr := Act(s, RecordBytes(RecordSize(q)));
    t := WriterStep(s, RecordBytes(RecordSize(q)));
    var tr1 := Act(t, FinishAppend);
    var t1 := WriterStep(t, FinishAppend);
    QuietLocks(t1);
    var tr2 := Act(t1, TakeIndex);
    var t2 := WriterStep(t1, TakeIndex);
    var tr3 := Act(t2, WriterAct.Insert);
    var t3 := WriterStep(t2, WriterAct.Insert);
    LeadsOn(tr, tr1, s, t, t1);
    LeadsOn(Then(tr, tr1), tr2, s, t1, t2);
    LeadsOn(Then(Then(tr, tr1), tr2), tr3, s, t2, t3);
    tr, t := Then(Then(Then(tr, tr1), tr2), tr3), t3;
  }

  lemma IdleIsRunInv(s: Conc)
    requires SysInv(s)
    ensures Valid(s.run.sys.store) && Sized(s.run)
    ensures s.pc.Idle? ==> Sys(s.store, s.index) == s.run.sys
  {
    hide Shape, LocksOk, CountersOk, ReadersOk;
    IdleIsRun(s);
  }

  lemma LeadsThrough(s: Conc, op: Op) returns (tr: seq<Conc>, t: Conc)
    requires SysInv(s) && Quiet(s) && s.pc.Idle? && op.env.header.Done? && op.env.record.Done?
    ensures SysInv(t) && Quiet(t) && t.readers == s.readers && Leads(tr, s, t) && t.pc.Idle?
    ensures Valid(s.run.sys.store) && Sized(s.run) && t.run == RunStep(s.run, op)
  {
    hide SysInv, Quiet, Leads, Then, RunStep;
    var tr1, t1 := LeadsToReady(s, op.req);
    var tr2, t2 := LeadsToAppend(t1, op.req, op.env.now);
    LeadsOn(tr1, tr2, s, t1, t2);
    tr, t := Then(tr1, tr2), t2;
    assert op == Op(op.req, Env(op.env.now, Done, Done));
    if RecordSize(op.req) <= s.run.sys.store.capacity {
      var tr3, t3 := LeadsToIdle(t2, op.req, op.env.now);
      LeadsOn(tr, tr3, s, t2, t3);
      tr, t := Then(tr, tr3), t3;
    }
  }

  predicate NothingFails(ops: seq<Op>) {
    forall i :: 0 <= i < |ops| ==> ops[i].env.header.Done? && ops[i].env.record.Done?
  }

  /** Any requests can be served while readers wait. */
  lemma {:induction false} LeadsThroughAll(s: Conc, ops: seq<Op>) returns (tr: seq<Conc>, t: Conc)
    requires SysInv(s) && Quiet(s) && s.pc.Idle? && NothingFails(ops)
    ensures SysInv(t) && Quiet(t) && t.readers == s.readers && Leads(tr, s, t) && t.pc.Idle?
    ensures Valid(s.run.sys.store) && Sized(s.run) && t.run == RunAll(s.run, ops)
  {
    hide SysInv, Quiet, RunStep;
    IdleIsRunInv(s);
    if ops == [] {
      tr, t := [s], s;
    } else {
      var n := |ops| - 1;
      var tr1, t1 := LeadsThroughAll(s, ops[..n]);
      var tr2, t2 := LeadsThrough(t1, ops[n]);
      hide Leads;
      LeadsOn(tr1, tr2, s, t1, t2);
      tr, t := Then(tr1, tr2), t2;
    }
  }

  // ---- one request, from lookup to answer ----

  /** A step of reader `id` while the writer waits for requests. */
  lemma Move(s: Conc, id: nat, a: ReaderAct) returns (tr: seq<Conc>)
    requires SysInv(s) && s.pc.Idle? && ReaderEnabled(s, id, a)
    ensures Core(s)
    ensures var t := ReaderStep(s, id, a);
            SysInv(t) && Leads(tr, s, t) && t.pc.Idle? && t.run == s.run && t.store == s.store && t.index == s.index
            && t.readers == s.readers[id := Moved(s, id, a)] && |t.counters| == |s.counters|
  {
    assert Core(s);
    ReaderStepInv(s, id, a);
    hide SysInv, Core, ReaderEnabled, Moved;
    assert Next(s, ReaderStep(s, id, a));
    tr := [s, ReaderStep(s, id, a)];
  }

  lemma LeadsToLookup(s: Conc, id: nat, m: Meta) returns (tr: seq<Conc>, t: Conc)
    requires SysInv(s) && Quiet(s) && s.pc.Idle? && id !in s.readers && m in s.index.entries
    ensures SysInv(t) && Quiet(t) && t.pc.Idle? && t.run == s.run && Leads(tr, s, t)
    ensures t.readers == s.readers[id := SFound(m.camera, m.id, m)]
  {
    hide SysInv, Core, Leads, Then, Next;
    var s1 := Arrived(s, id, SStart(m.camera, m.id));
    ArrivedInv(s, id, SStart(m.camera, m.id));
    var tr1 := [s, s1];
    assert Leads(tr1, s, s1) by {
      ArrivedNext(s, id, SStart(m.camera, m.id));
      OneStep(s, s1);
    }
    assert !s1.indexLock.writer by {
      IdleLocks(s1);
    }
    var tr2 := Move(s1, id, Query);
    t := ReaderStep(s1, id, Query);
    FindsIt(s1, id, m);
    LeadsOn(tr1, tr2, s, s1, t);
    tr := Then(tr1, tr2);
    assert t.readers == s.readers[id := SFound(m.camera, m.id, m)];
  }

  lemma ArrivedNext(s: Conc, id: nat, x: Reader)
    requires id !in s.readers && (x.XStart? || x.SStart?)
    ensures Next(s, Arrived(s, id, x))
  {
    hide Core, Shape;
  }

  lemma OneStep(s: Conc, t: Conc)
    requires Next(s, t)
    ensures Leads([s, t], s, t)
  {
  }

  lemma IdleLocks(s: Conc)
    requires SysInv(s) && s.pc.Idle?
    ensures !s.indexLock.writer && !s.poolLock.writer
  {
    hide Core, Shape, CountersOk, ReadersOk;
  }

  /** Ids are unique in the index, so the lookup finds this entry and no other. */
  lemma FindsIt(s: Conc, id: nat, m: Meta)
    requires Core(s) && ReaderEnabled(s, id, Query) && s.readers[id] == SStart(m.camera, m.id) && m in s.index.entries
    ensures Moved(s, id, Query) == SFound(m.camera, m.id, m)
  {
    IndexedKnown(s);
    hide Core, Matches, FilesOf;
  }

  /** The request reads. */
  lemma LeadsToRead(s: Conc, id: nat, m: Meta) returns (tr: seq<Conc>, t: Conc)
    requires SysInv(s) && s.pc.Idle? && id in s.readers && s.readers[id] == SFound(m.camera, m.id, m)
    ensures SysInv(t) && t.pc.Idle? && t.run == s.run && Leads(tr, s, t) && id in t.readers
    ensures Core(s) && Addressable(s.store, m.loc)
    ensures t.readers[id].SRead? && t.readers[id].meta == m && t.readers[id].seen.data == ReadSegment(s.store, m.loc)
  {
    hide SysInv, Core, Leads, Then, Next, Known, ReadSegment, Look, Addressable;
    IdleLocks(s);
    Readable(s, id);
    var j := m.loc.poolIdx;
    var tr1 := Move(s, id, LockPool);
    var s1 := ReaderStep(s, id, LockPool);
    var tr2 := Move(s1, id, AcquireGuard(j));
    var s2 := ReaderStep(s1, id, AcquireGuard(j));
    Readable(s2, id);
    LookData(s2, m);
    var tr3 := Move(s2, id, ReadData);
    t := ReaderStep(s2, id, ReadData);
    LeadsOn(tr1, tr2, s, s1, s2);
    LeadsOn(Then(tr1, tr2), tr3, s, s2, t);
    tr := Then(Then(tr1, tr2), tr3);
  }

  /** The request lets go and answers. */
  lemma LeadsToDone(s: Conc, id: nat) returns (tr: seq<Conc>, t: Conc)
    requires SysInv(s) && s.pc.Idle? && id in s.readers && s.readers[id].SRead?
    ensures SysInv(t) && t.pc.Idle? && t.run == s.run && Leads(tr, s, t) && id in t.readers
    ensures var x := s.readers[id]; t.readers[id] == SDone(x.camera, x.segId, x.meta, x.seen)
  {
    hide SysInv, Core, Leads, Then, Next, Known;
    var j := s.readers[id].meta.loc.poolIdx;
    Guarded(s, id);
    var tr1 := Move(s, id, DropGuard(j));
    var s1 := ReaderStep(s, id, DropGuard(j));
    var tr2 := Move(s1, id, UnlockPool);
    t := ReaderStep(s1, id, UnlockPool);
    LeadsOn(tr1, tr2, s, s1, t);
    tr := Then(tr1, tr2);
  }

  lemma LeadsToAnswer(s: Conc, id: nat, m: Meta) returns (tr: seq<Conc>, t: Conc)
    requires SysInv(s) && s.pc.Idle? && id in s.readers && s.readers[id] == SFound(m.camera, m.id, m)
    ensures SysInv(t) && t.pc.Idle? && t.run == s.run && Leads(tr, s, t) && id in t.readers
    ensures Core(s) && Addressable(s.store, m.loc)
    ensures t.readers[id].SDone? && t.readers[id].meta == m && t.readers[id].seen.data == ReadSegment(s.store, m.loc)
  {
    hide SysInv, Core, Leads, Then, ReadSegment, Addressable;
    var tr1, s1 := LeadsToRead(s, id, m);
    var tr2, s2 := LeadsToDone(s1, id);
    LeadsOn(tr1, tr2, s, s1, s2);
    tr, t := Then(tr1, tr2), s2;
  }

  lemma LookData(s: Conc, m: Meta)
    requires Core(s) && Addressable(s.store, m.loc)
    ensures Look(s, m).data == ReadSegment(s.store, m.loc)
  {
  }

  lemma Readable(s: Conc, id: nat)
    requires SysInv(s) && id in s.readers && (s.readers[id].SFound? || s.readers[id].SGuarded?)
    ensures Core(s) && Addressable(s.store, s.readers[id].meta.loc) && s.readers[id].meta.loc.poolIdx < |s.counters|
  {
    hide Core, Shape, LocksOk, CountersOk, ReadersOk;
    IsOk(s, id);
    SameIdSameBytes(s, s.readers[id].meta.id);
    CoreSizes(s);
  }

  lemma Guarded(s: Conc, id: nat)
    requires SysInv(s) && id in s.readers && s.readers[id].SRead?
    ensures s.readers[id].meta.loc.poolIdx < |s.counters| && s.counters[s.readers[id].meta.loc.poolIdx] > 0
  {
    hide Core, Shape, LocksOk;
    IsOk(s, id);
    assert id in Holders(s.readers, s.readers[id].meta.loc.poolIdx);
  }

  /** Whatever the writer alone can do between a lookup and the read can happen to a request: from any system
      waiting for requests, for any entry and any requests, there is an execution in which a segment request looks
      the entry up, those requests are served, and the request then returns what its location holds. */
  lemma LateRequest(s: Conc, m: Meta, ops: seq<Op>) returns (tr: seq<Conc>, at: nat)
    requires Init(s) && m in s.index.entries && NothingFails(ops)
    ensures Execution(tr) && tr[0] == s && at < |tr| - 1 && 0 in tr[at].readers && 0 in tr[|tr| - 1].readers
    ensures tr[at].run == s.run && tr[at].readers[0] == SFound(m.camera, m.id, m)
    ensures Valid(s.run.sys.store) && Sized(s.run)
    ensures var t, r' := tr[|tr| - 1], RunAll(s.run, ops);
            && t.run == r' && Addressable(r'.sys.store, m.loc)
            && t.readers[0].SDone? && t.readers[0].meta == m
            && t.readers[0].seen.data == ReadSegment(r'.sys.store, m.loc)
  {
    hide Leads, SysInv, Core, ReadSegment, RunAll, Quiet;
    InitInv(s);
    InitQuiet(s);
    IdleIsRunInv(s);
    var tr1, t1 := LeadsToLookup(s, 0, m);
    var tr2, t2 := LeadsThroughAll(t1, ops);
    var tr3, t3 := LeadsToAnswer(t2, 0, m);
    IdleIsRunInv(t2);
    LeadsOn(tr1, tr2, s, t1, t2);
    LeadsOn(Then(tr1, tr2), tr3, s, t2, t3);
    tr := Then(Then(tr1, tr2), tr3);
    LeadsExecution(tr, s, t3);
    LeadsEnds(tr1, s, t1);
    LeadsEnds(tr2, t1, t2);
    LeadsEnds(tr3, t2, t3);
    at := |tr1| - 1;
    assert tr[at] == t1;
  }

  lemma InitQuiet(s: Conc)
    requires Init(s)
    ensures Quiet(s) && s.pc.Idle? && s.readers == map[]
  {
  }

  lemma LeadsEnds(tr: seq<Conc>, s: Conc, t: Conc)
    requires Leads(tr, s, t)
    ensures tr != [] && tr[0] == s && tr[|tr| - 1] == t && (|tr| == 1 ==> s == t)
  {
  }

  lemma LeadsExecution(tr: seq<Conc>, s: Conc, t: Conc)
    requires Leads(tr, s, t) && Init(s)
    ensures Execution(tr) && tr[0] == s && tr[|tr| - 1] == t
  {
    hide Next, Init;
  }

  // ---- another record's payload ----

  /** In a one-file store, a record at the start of the file and a next one of the same size that no longer fits
      behind: a location looked up before reads the new record's payload afterwards, although the entry has left
      the index. */
  lemma StaleLocationReadsOther(r: Run, m: Meta, op: Op)
    requires Inv(r) && |r.turns| == 1 && m in r.sys.index.entries
    requires Valid(r.sys.store) && Sized(r) && Succeeds(r.sys.store.capacity, op)
    requires m.loc.offset == POOL_HEADER && m.loc.size == RecordSize(op.req) && Full(r.sys.store, RecordSize(op.req))
    ensures var r' := RunStep(r, op);
            && Addressable(r'.sys.store, m.loc) && ReadSegment(r'.sys.store, m.loc) == Some(op.req.data)
            && m !in r'.sys.index.entries
  {
    EntryReadable(r, m);
    RunStepInv(r, op);
    var r' := RunStep(r, op);
    var r2 := Rotated(Evicted(r), op.env.now, Done);
    assert r' == Recorded(r2, op.req, Done);
    hide Inv, KeyLe, PoolHeader, EncodeHeader, RunStep;
    PatchRange(r2.sys.store.files[0], POOL_HEADER, EncodeRecord(op.req), POOL_HEADER, POOL_HEADER);
    var f := r'.sys.store.files[0];
    assert f[POOL_HEADER..POOL_HEADER + m.loc.size] == EncodeRecord(op.req);
    assert f[POOL_HEADER + RECORD_HEADER..POOL_HEADER + m.loc.size]
           == f[POOL_HEADER..POOL_HEADER + m.loc.size][RECORD_HEADER..];
    InsertMembers(r2.sys.index.entries, r'.hist[|r2.hist|].meta, KeyLe, m);
  }

  /** So there are executions in which a request for one record is answered with the payload of another. */
  lemma OtherPayloadServed(s: Conc, m: Meta, op: Op) returns (tr: seq<Conc>, at: nat)
    requires Init(s) && |s.run.turns| == 1 && m in s.index.entries
    requires Valid(s.store) && Succeeds(s.store.capacity, op) && op.req.data != PayloadOf(s, m.id)
    requires m.loc.offset == POOL_HEADER && m.loc.size == RecordSize(op.req) && Full(s.store, RecordSize(op.req))
    ensures Execution(tr) && tr[0] == s && at < |tr| - 1 && 0 in tr[at].readers && 0 in tr[|tr| - 1].readers
    ensures tr[at].readers[0] == SFound(m.camera, m.id, m)
    ensures var t := tr[|tr| - 1];
            && t.readers[0].SDone? && t.readers[0].segId == m.id
            && t.readers[0].seen.data == Some(op.req.data) != Some(PayloadOf(t, m.id))
  {
    hide RunStep, ReadSegment, Known, Execution;
    InitInv(s);
    assert ([op])[..0] == [];
    tr, at := LateRequest(s, m, [op]);
    assert RunAll(s.run, [op]) == RunStep(s.run, op);
    StaleLocationReadsOther(s.run, m, op);
    var t := tr[|tr| - 1];
    SegmentsAreExact(tr, |tr| - 1, 0);
    StepExtends(s.run, op);
    EntryPayloadKept(s, t, m);
  }

  lemma EntryPayloadKept(s: Conc, t: Conc, m: Meta)
    requires Core(s) && m in s.index.entries && s.run.hist <= t.run.hist
    ensures PayloadOf(t, m.id) == PayloadOf(s, m.id)
  {
    IndexedKnown(s);
    hide Core;
  }

  /** A system waiting for requests, with nobody reading. */
  function Waiting(r: Run): Conc {
    Conc(r, r.sys.store, r.sys.index, Idle, map[], seq(|r.turns|, _ => 0), Lock(false, {}), Lock(false, {}))
  }

  /** One record written to a fresh one-file store of just its size. */
  lemma OneRecord(now: Instant, op: Op)
    requires op.env == Env(now, Done, Done) && |op.req.data| == 8
    ensures Valid(Fresh(1, 48, now).sys.store)
    ensures var r := RunStep(Fresh(1, 48, now), op);
            && Inv(r) && Valid(r.sys.store) && |r.turns| == 1 && r.sys.store.capacity == 48 && |r.hist| == 1
            && r.sys.store.slots[0].used == 48 && r.sys.store.writeIdx == 0 && r.hist[0].meta in r.sys.index.entries
            && r.hist[0].meta.id == 0 && r.hist[0].meta.loc.offset == POOL_HEADER && r.hist[0].meta.loc.size == 48
            && |r.hist[0].raw| == 48 && Payload(r.hist[0]) == op.req.data
  {
    hide Fresh, Inv, RunStep, UsedIsLog, EncodeHeader, InsertBy, UsedAsScanned, Valid, KeyLe;
    FreshShape(1, 48, now);
    FreshStart(1, 48, now);
    var r0 := Fresh(1, 48, now);
    StepStays(r0, op);
    RunStepInv(r0, op);
    InvIds(RunStep(r0, op));
    FirstRecorded(r0, op);
  }

  lemma FirstRecorded(r: Run, op: Op)
    requires Valid(r.sys.store) && Sized(r) && Succeeds(r.sys.store.capacity, op) && r.hist == []
    requires !Full(r.sys.store, RecordSize(op.req)) && r.sys.index == EMPTY_INDEX
    requires r.sys.store.slots[r.sys.store.writeIdx].used == 0
    ensures var h := RunStep(r, op).hist[0];
            && h.meta in RunStep(r, op).sys.index.entries && h.meta.id == 0 && h.meta.loc.offset == POOL_HEADER
            && h.meta.loc.size == |h.raw| == RecordSize(op.req) && Payload(h) == op.req.data
  {
    hide EncodeHeader, KeyLe, Patch;
  }

  /** Such an execution, from an empty disk: two requests of eight bytes each to a store of one file holding one
      record; a request for the first record is answered with the second one's bytes. */
  lemma StaleExample(now: Instant, first: Op, second: Op) returns (tr: seq<Conc>, at: nat)
    requires first.env == second.env == Env(now, Done, Done)
    requires |first.req.data| == |second.req.data| == 8 && first.req.data != second.req.data
    ensures Valid(Fresh(1, 48, now).sys.store)
    ensures Execution(tr) && tr[0] == Waiting(RunStep(Fresh(1, 48, now), first)) && at < |tr| - 1
    ensures 0 in tr[at].readers && tr[at].readers[0].SFound? && 0 in tr[|tr| - 1].readers
    ensures var x := tr[|tr| - 1].readers[0];
            x.SDone? && x.segId == 0 && x.seen.data == Some(second.req.data) != Some(PayloadOf(tr[|tr| - 1], 0))
  {
    hide Fresh, RunStep, Inv, Execution, Valid;
    OneRecord(now, first);
    var r := RunStep(Fresh(1, 48, now), first);
    WaitingInit(r);
    tr, at := OtherPayloadServed(Waiting(r), r.hist[0].meta, second);
  }

  lemma WaitingInit(r: Run)
    requires Inv(r)
    ensures Init(Waiting(r))
  {
    InvIds(r);
    hide Inv;
  }
}
