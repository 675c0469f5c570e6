/** What the reader counters are for: which files an export guards, and that no file is reused before its counter
    has been seen at zero or the writer has waited long enough. */
module GuardedFiles {
  import opened Bytes
  import opened RecordFormat
  import opened PoolModel
  import opened IndexModel
  import opened WriterModel
  import opened Protocol
  import opened Readers

  // ---- which files an export guards ----

  /** The files in which some segment of the list lies. */
  ghost predicate FilesAre(files: set<nat>, segs: seq<Meta>) {
    forall j :: j in files <==> exists m :: m in segs && m.loc.poolIdx == j
  }

  /** While an export takes its guards, those taken and those still to take are the files of the entries that
      overlap its range in the index it holds the lock of. */
  lemma QueryGuards(tr: seq<Conc>, i: nat, id: nat)
    requires Execution(tr) && i < |tr| && id in tr[i].readers && tr[i].readers[id].XQuery?
    ensures var s, x := tr[i], tr[i].readers[id];
            && id in s.indexLock.readers && !s.indexLock.writer
            && ListsRange(s.index.entries, x.camera, x.from, x.to, InRange(s.index, x.camera, x.from, x.to))
            && FilesAre(x.todo + x.guards, InRange(s.index, x.camera, x.from, x.to))
  {
    hide ListsRange, Execution, InRange;
    ExecutionInv(tr, i);
    var s, x := tr[i], tr[i].readers[id];
    InRangeListsRange(s.index, x.camera, x.from, x.to);
    hide CountersOk, Core, Shape;
    assert ReaderOk(s, x);
    assert id in IndexReaders(s.readers);
  }

  /** A reader that has its guards, or is reading under them, had them just before. */
  lemma BeforeGuarded(s: Conc, s': Conc, id: nat)
    requires SysInv(s) && Next(s, s') && id in s'.readers && (s'.readers[id].XGuarded? || s'.readers[id].XReading?)
    ensures id in s.readers
    ensures var x, x' := s.readers[id], s'.readers[id];
            && (x.XGuarded? || x.XReading? || (x.XQuery? && x.todo == {}))
            && x.camera == x'.camera && x.from == x'.from && x.to == x'.to && x.guards == x'.guards
  {
    hide SysInv, Core, Shape, WriterStep, WriterEnabled, Arrived;
    if a: WriterAct :| Core(s) && Shape(s) && WriterEnabled(s, a) && s' == WriterStep(s, a) {
      HistoryKept(s, a);
    } else if n: nat, a: ReaderAct :| Core(s) && ReaderEnabled(s, n, a) && s' == ReaderStep(s, n, a) {
      hide ReadSegment, SameFile, Untouched, Matches, FilesOf, Addressable;
    } else {
      var n: nat, x: Reader :| n !in s.readers && (x.XStart? || x.SStart?) && s' == Arrived(s, n, x);
      ArrivedReaders(s, n, x);
    }
  }

  /** From the end of its query until it starts dropping them, an export holds guards on exactly the files of the
      entries that overlapped its range at one moment, `k`, under the index lock, and has held them since. */
  lemma {:induction false} GuardsOfQuery(tr: seq<Conc>, i: nat, id: nat) returns (k: nat)
    requires Execution(tr) && i < |tr| && id in tr[i].readers
    requires tr[i].readers[id].XGuarded? || tr[i].readers[id].XReading?
    ensures var x := tr[i].readers[id];
            && k < i && id in tr[k].readers && tr[k].readers[id].XQuery?
            && ListsRange(tr[k].index.entries, x.camera, x.from, x.to, InRange(tr[k].index, x.camera, x.from, x.to))
            && FilesAre(x.guards, InRange(tr[k].index, x.camera, x.from, x.to))
            && forall m :: k <= m <= i ==> id in tr[m].readers && GuardsOf(tr[m].readers[id]) == x.guards
  {
    hide SysInv, Next, Init, FilesAre, ListsRange, InRange;
    var x := tr[i].readers[id];
    if i == 0 {
      NoReadersYet(tr[0]);
      assert false;
    } else {
      ExecutionInv(tr, i - 1);
      BeforeGuarded(tr[i - 1], tr[i], id);
      if tr[i - 1].readers[id].XQuery? {
        k := i - 1;
        QueryGuards(tr, k, id);
        assert tr[k].readers[id].todo + x.guards == x.guards;
      } else {
        k := GuardsOfQuery(tr, i - 1, id);
      }
    }
  }

  // ---- what a rotation waits for ----

  /** The step turns file `j` to a new pass: its id or header changes, or what was used of it. */
  ghost predicate Reuses(s: Store, s': Store, j: nat) {
    && Valid(s) && Valid(s') && j < |s.slots| == |s'.slots| && s.capacity == s'.capacity
    && (|| s'.slots[j].poolId != s.slots[j].poolId || s'.slots[j].used < s.slots[j].used
        || s'.files[j][..POOL_HEADER + s.slots[j].used] != s.files[j][..POOL_HEADER + s.slots[j].used])
  }

  /** The writer gives up waiting for the next file, or need not wait. */
  predicate MayTurn(s: Conc) {
    s.pc.Waiting? && s.store.writeIdx < |s.counters| && (s.counters[s.store.writeIdx] == 0 || s.pc.polls == 50)
  }

  /** The writer's position after a step, as far as waiting and headers go. */
  ghost predicate TurnsFrom(s: Conc, s': Conc) {
    && (s'.pc.HeaderOut? ==> s'.store.writeIdx == s.store.writeIdx && (s.pc.HeaderOut? || MayTurn(s)))
    && (s'.pc.Waiting? ==>
          || (s.pc.Appending? && s'.pc.polls == 0)
          || (s.pc.Waiting? && s'.store.writeIdx == s.store.writeIdx && s'.pc.polls == s.pc.polls)
          || (s.pc.Waiting? && s'.store.writeIdx == s.store.writeIdx < |s.counters| && s'.pc.polls == s.pc.polls + 1
              && s.counters[s.store.writeIdx] > 0))
  }

  lemma WriterTurns(s: Conc, a: WriterAct)
    requires Core(s) && Shape(s) && WriterEnabled(s, a)
    ensures TurnsFrom(s, WriterStep(s, a))
  {
    CoreSizes(s);
    PollsBound(s);
    hide Core, EncodeRecord, PoolHeader, Push, IndexModel.Evict, IndexModel.Insert, Rotate, WriteRecord, RunStep, Full,
      NextIdx;
  }

  lemma WriterKeepsSizes(s: Conc, a: WriterAct)
    requires Core(s) && Shape(s) && WriterEnabled(s, a)
    ensures |WriterStep(s, a).store.slots| == |s.store.slots| && WriterStep(s, a).store.capacity == s.store.capacity
  {
    hide Core, EncodeRecord, PoolHeader, IndexModel.Evict, IndexModel.Insert, Rotate, WriteRecord, RunStep, Full,
      NextIdx, Patch;
  }

  /** Only these steps touch a file or its slot. */
  lemma StoreSteps(s: Conc, a: WriterAct)
    requires Core(s) && Shape(s) && WriterEnabled(s, a)
    ensures var st, st', w := s.store, WriterStep(s, a).store, s.store.writeIdx;
            || (st'.slots == st.slots && st'.files == st.files)
            || (a.Poll? && WriterStep(s, a).pc.HeaderOut? && st'.files == st.files
                && w < |st'.slots| && st'.slots == st.slots[w := st'.slots[w]])
            || (s.pc.HeaderOut? && st'.slots == st.slots && w < |st'.files|
                && st'.files == st.files[w := st'.files[w]])
            || (a.RecordBytes?
                && st' == Push(st, w, POOL_HEADER + st.slots[w].used, EncodeRecord(s.pc.q), s.pc.done, a.upTo))
            || (a.FinishAppend? && st'.files == st.files
                && st'.slots == st.slots[w := st.slots[w].(used := st.slots[w].used + RecordSize(s.pc.q))])
  {
    hide Core, EncodeHeader, PoolHeader, IndexModel.Evict, IndexModel.Insert, Rotate, WriteRecord, RunStep, Full,
      NextIdx, Patch;
  }

  lemma PushKeepsHead(s: Store, at: nat, data: seq<byte>, from: nat, upTo: nat)
    requires Valid(s) && from <= upTo <= |data| && at + |data| <= |s.files[s.writeIdx]|
    ensures var s' := Push(s, s.writeIdx, at, data, from, upTo);
            s'.slots == s.slots && |s'.files| == |s.files|
            && forall j :: 0 <= j < |s.files| ==>
                 |s'.files[j]| == |s.files[j]| && (j == s.writeIdx ==> s'.files[j][..at] == s.files[j][..at])
                 && (j != s.writeIdx ==> s'.files[j] == s.files[j])
  {
    PatchRange(s.files[s.writeIdx], at + from, data[from..upTo], 0, at);
  }

  lemma WriterReuses(s: Conc, a: WriterAct, j: nat)
    requires Core(s) && Shape(s) && WriterEnabled(s, a)
    ensures Reuses(s.store, WriterStep(s, a).store, j) ==>
              j == s.store.writeIdx && (s.pc.HeaderOut? || (s.pc.Waiting? && WriterStep(s, a).pc.HeaderOut?))
  {
    StoreSteps(s, a);
    if a.RecordBytes? {
      var at := POOL_HEADER + s.store.slots[s.store.writeIdx].used;
      PushKeepsHead(s.store, at, EncodeRecord(s.pc.q), s.pc.done, a.upTo);
    }
    hide Core, WriterStep, Push, EncodeRecord, Full;
  }

  /** Readers do not move the writer. */
  ghost predicate WriterStays(s: Conc, s': Conc) {
    s'.store == s.store && s'.pc == s.pc
  }

  lemma ReaderLeavesWriter(s: Conc, s': Conc)
    requires Next(s, s')
    ensures WriterStays(s, s')
            || exists a: WriterAct :: Core(s) && Shape(s) && WriterEnabled(s, a) && s' == WriterStep(s, a)
  {
    hide Core, Shape, WriterStep, WriterEnabled, Moved, ReaderEnabled;
  }

  lemma StaysTurns(s: Conc, s': Conc)
    requires Core(s) && Shape(s) && WriterStays(s, s')
    ensures TurnsFrom(s, s')
    ensures forall j: nat :: !Reuses(s.store, s'.store, j)
  {
    hide Core, Valid;
  }

  lemma StepTurns(s: Conc, s': Conc)
    requires SysInv(s) && Next(s, s')
    ensures TurnsFrom(s, s')
    ensures Valid(s.store) && Valid(s'.store)
    ensures |s.store.slots| == |s'.store.slots| && s.store.capacity == s'.store.capacity
    ensures forall j: nat :: Reuses(s.store, s'.store, j) ==>
              j == s.store.writeIdx && (s.pc.HeaderOut? || (s.pc.Waiting? && s'.pc.HeaderOut?))
  {
    hide Core, WriterStep, WriterEnabled, Reuses, LocksOk, CountersOk, ReadersOk, TurnsFrom, Valid, Next, WriterStays;
    NextInv(s, s');
    ReaderLeavesWriter(s, s');
    if WriterStays(s, s') {
      StaysTurns(s, s');
      SameSizes(s, s');
    } else {
      var a: WriterAct :| Core(s) && Shape(s) && WriterEnabled(s, a) && s' == WriterStep(s, a);
      WriterTurns(s, a);
      WriterKeepsSizes(s, a);
      forall j: nat | Reuses(s.store, s'.store, j)
        ensures j == s.store.writeIdx && (s.pc.HeaderOut? || (s.pc.Waiting? && s'.pc.HeaderOut?))
      {
        WriterReuses(s, a, j);
      }
    }
  }

  lemma SameSizes(s: Conc, s': Conc)
    requires WriterStays(s, s')
    ensures |s.store.slots| == |s'.store.slots| && s.store.capacity == s'.store.capacity
  {
  }

  // ---- over executions ----

  /** Moments of one wait, in order, up to `i`, at each of which the file waited for had readers. */
  ghost predicate Looks(tr: seq<Conc>, i: nat, looks: seq<nat>)
    requires i < |tr|
  {
    && (forall a, b :: 0 <= a < b < |looks| ==> looks[a] < looks[b])
    && (forall a :: 0 <= a < |looks| ==> looks[a] < i && BusyLook(tr[looks[a]], tr[i].store.writeIdx))
    && (looks != [] ==> forall m :: looks[0] <= m <= i ==> tr[m].pc.Waiting?)
  }

  predicate BusyLook(s: Conc, j: nat) {
    s.store.writeIdx == j < |s.counters| && s.counters[j] > 0
  }

  /** The writer's poll count is the number of times it has found readers. */
  lemma {:induction false} PollsAreLooks(tr: seq<Conc>, i: nat) returns (looks: seq<nat>)
    requires Execution(tr) && i < |tr| && tr[i].pc.Waiting?
    ensures |looks| == tr[i].pc.polls && Looks(tr, i, looks)
  {
    hide SysInv, Next, Init;
    looks := [];
    if i == 0 {
      NotWaitingYet(tr[0]);
      assert false;
    } else if tr[i].pc.polls == 0 {
    } else {
      var s := tr[i - 1];
      ExecutionInv(tr, i - 1);
      StepTurns(s, tr[i]);
      looks := PollsAreLooks(tr, i - 1);
      if tr[i].pc.polls == s.pc.polls + 1 {
        assert BusyLook(s, tr[i].store.writeIdx);
        looks := looks + [i - 1];
      }
    }
  }

  lemma NotWaitingYet(s: Conc)
    requires Init(s)
    ensures s.pc.Idle?
  {
  }

  /** At moment `k` the writer stopped waiting for file `j` and turned to it: having found no reader of it, or,
      after as many looks as `looks` lists, each of which found one, the fiftieth time. */
  ghost predicate Turned(tr: seq<Conc>, k: nat, j: nat, looks: seq<nat>) {
    && k + 1 < |tr| && tr[k].pc.Waiting? && tr[k + 1].pc.HeaderOut? && tr[k].store.writeIdx == j < |tr[k].counters|
    && Looks(tr, k, looks) && |looks| <= 50 && (tr[k].counters[j] == 0 || |looks| == 50)
    && ((exists id :: id in tr[k].readers && j in GuardsOf(tr[k].readers[id])) ==> |looks| == 50)
  }

  lemma TurnedAt(tr: seq<Conc>, k: nat) returns (looks: seq<nat>)
    requires Execution(tr) && k + 1 < |tr| && MayTurn(tr[k]) && tr[k + 1].pc.HeaderOut?
    ensures Turned(tr, k, tr[k].store.writeIdx, looks)
  {
    hide Execution, Looks;
    looks := PollsAreLooks(tr, k);
    CountersAndWaiting(tr, k);
  }

  /** Whenever the writer is about to write the header of a file, it has waited for it. */
  lemma {:induction false} HeaderAfterWait(tr: seq<Conc>, i: nat) returns (k: nat, looks: seq<nat>)
    requires Execution(tr) && i < |tr| && tr[i].pc.HeaderOut?
    ensures k < i && Turned(tr, k, tr[i].store.writeIdx, looks)
    ensures forall m :: k < m <= i ==> tr[m].pc.HeaderOut? && tr[m].store.writeIdx == tr[i].store.writeIdx
  {
    hide SysInv, Next, Init, Turned, MayTurn;
    if i == 0 {
      NotWaitingYet(tr[0]);
      assert false;
    } else {
      ExecutionInv(tr, i - 1);
      StepTurns(tr[i - 1], tr[i]);
      if tr[i - 1].pc.HeaderOut? {
        k, looks := HeaderAfterWait(tr, i - 1);
      } else {
        k := i - 1;
        looks := TurnedAt(tr, k);
      }
    }
  }

  /** In every interleaving: a step that reuses a file, that is, changes its id, its header or what is used of it,
      comes after a wait for its readers that ended, and nothing but the header was written since. The wait ended
      because the file had no readers or after fifty looks that each found some; so for a file on which anybody
      holds a guard, not before the fiftieth. */
  lemma RotationWaits(tr: seq<Conc>, i: nat, j: nat) returns (k: nat, looks: seq<nat>)
    requires Execution(tr) && i + 1 < |tr|
    requires Reuses(tr[i].store, tr[i + 1].store, j)
    ensures k <= i && Turned(tr, k, j, looks)
    ensures forall m :: k < m <= i ==> tr[m].pc.HeaderOut? && tr[m].store.writeIdx == j
  {
    hide SysInv, Next, Init, Turned, MayTurn, Reuses, Valid;
    ExecutionInv(tr, i);
    StepTurns(tr[i], tr[i + 1]);
    if tr[i].pc.HeaderOut? {
      k, looks := HeaderAfterWait(tr, i);
    } else {
      k := i;
      looks := TurnedAt(tr, k);
    }
  }
}
