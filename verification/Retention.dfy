/** How many bytes of recordings a ring holds, for runs in which every request fits and no write fails. */
module Retention {
  import opened Bytes
  import opened RecordFormat
  import opened PoolModel
  import opened IndexModel
  import opened Sorting
  import opened WriterModel
  import opened Recovery
  import opened RingHistory

  function EntryBytes(entries: seq<Meta>): nat {
    if entries == [] then 0 else entries[0].loc.size + EntryBytes(entries[1..])
  }

  /** Bytes of the entries that lie in file `j`. */
  function FileBytes(entries: seq<Meta>, j: nat): nat {
    if entries == [] then 0
    else (if entries[0].loc.poolIdx == j then entries[0].loc.size else 0) + FileBytes(entries[1..], j)
  }

  /** Bytes of the entries that lie in files 0..k-1. */
  function FilesBytes(entries: seq<Meta>, k: nat): nat {
    if k == 0 then 0 else FilesBytes(entries, k - 1) + FileBytes(entries, k - 1)
  }

  function UsedBytes(s: Store, k: nat): nat
    requires k <= |s.slots|
  {
    if k == 0 then 0 else UsedBytes(s, k - 1) + s.slots[k - 1].used
  }

  function AcceptedBytes(hist: seq<Accepted>): nat {
    if hist == [] then 0 else AcceptedBytes(hist[..|hist| - 1]) + hist[|hist| - 1].meta.loc.size
  }

  lemma {:induction false} InsertedBytes(entries: seq<Meta>, m: Meta, j: nat)
    ensures FileBytes(InsertBy(entries, m, KeyLe), j)
            == FileBytes(entries, j) + (if m.loc.poolIdx == j then m.loc.size else 0)
  {
    hide KeyLe;
    if entries == [] {
    } else {
      InsertedBytes(entries[1..], m, j);
      assert ([m] + entries)[1..] == entries;
    }
  }

  lemma {:induction false} EvictedBytes(entries: seq<Meta>, v: nat, j: nat)
    ensures FileBytes(Filter(entries, (m: Meta) => m.loc.poolIdx != v), j)
            == if j == v then 0 else FileBytes(entries, j)
  {
    if entries == [] {
    } else {
      EvictedBytes(entries[1..], v, j);
    }
  }

  lemma {:induction false} BytesByFile(entries: seq<Meta>, n: nat)
    requires forall m :: m in entries ==> m.loc.poolIdx < n
    ensures FilesBytes(entries, n) == EntryBytes(entries)
  {
    if entries == [] {
      NoFilesBytes(n);
    } else {
      BytesByFile(entries[1..], n);
      FilesBytesCons(entries, n);
    }
  }

  lemma {:induction false} NoFilesBytes(k: nat)
    ensures FilesBytes([], k) == 0
  {
    if k == 0 {
    } else {
      NoFilesBytes(k - 1);
    }
  }

  lemma {:induction false} FilesBytesCons(entries: seq<Meta>, k: nat)
    requires entries != []
    ensures FilesBytes(entries, k)
            == FilesBytes(entries[1..], k) + (if entries[0].loc.poolIdx < k then entries[0].loc.size else 0)
  {
    if k == 0 {
    } else {
      FilesBytesCons(entries, k - 1);
    }
  }

  /** No record is larger than `m`. */
  predicate AtMost(m: nat, ops: seq<Op>) {
    forall i :: 0 <= i < |ops| ==> RecordSize(ops[i].req) <= m
  }

  ghost predicate Retaining(r: Run, m: nat)
    requires Valid(r.sys.store) && Sized(r)
  {
    var s := r.sys.store;
    && (r.rotations < |r.turns| ==> s.writeIdx == r.rotations)
    && (forall j :: 0 <= j < |s.slots| && j != s.writeIdx && ReachedFile(r, j) ==> s.slots[j].used + m > s.capacity)
    && (forall j: nat :: j < |s.slots| ==> FileBytes(r.sys.index.entries, j) == s.slots[j].used)
    && AcceptedBytes(r.hist) >= r.rotations * (s.capacity - m + 1) + s.slots[s.writeIdx].used
  }

  lemma TurnedRetaining(r: Run, q: Request, now: Instant, m: nat)
    requires Valid(r.sys.store) && Sized(r) && Retaining(r, m) && m <= r.sys.store.capacity
    requires RecordSize(q) <= m && Full(r.sys.store, RecordSize(q))
    ensures Retaining(Rotated(Evicted(r), now, Done), m)
  {
    hide PoolHeader, FileBytes, AcceptedBytes;
    NextIdxCases(r.sys.store);
    var c := r.sys.store.capacity - m + 1;
    assert (r.rotations + 1) * c == r.rotations * c + c;
    forall j: nat | j < |r.turns|
      ensures FileBytes(Evict(r.sys.index, NextIdx(r.sys.store)).entries, j)
              == if j == NextIdx(r.sys.store) then 0 else r.sys.store.slots[j].used
    {
      EvictedBytes(r.sys.index.entries, NextIdx(r.sys.store), j);
    }
  }

  lemma RecordedRetaining(r: Run, q: Request, m: nat)
    requires Valid(r.sys.store) && Sized(r) && Retaining(r, m) && !Full(r.sys.store, RecordSize(q))
    ensures Retaining(Recorded(r, q, Done), m)
  {
    hide EncodeRecord, FileBytes, Patch, KeyLe, InsertBy;
    var r' := Recorded(r, q, Done);
    assert r'.hist[..|r.hist|] == r.hist;
    forall j: nat | j < |r.turns|
      ensures FileBytes(r'.sys.index.entries, j) == r'.sys.store.slots[j].used
    {
      InsertedBytes(r.sys.index.entries, r'.hist[|r.hist|].meta, j);
    }
  }

  lemma StepRetaining(r: Run, op: Op, m: nat)
    requires Valid(r.sys.store) && Sized(r) && Retaining(r, m) && m <= r.sys.store.capacity
    requires Succeeds(r.sys.store.capacity, op) && RecordSize(op.req) <= m
    ensures Retaining(RunStep(r, op), m)
  {
    hide Retaining, Evict, PoolHeader, WriteRecord;
    if Full(r.sys.store, RecordSize(op.req)) {
      TurnedRetaining(r, op.req, op.env.now, m);
      RecordedRetaining(Rotated(Evicted(r), op.env.now, Done), op.req, m);
    } else {
      RecordedRetaining(r, op.req, m);
    }
  }

  lemma {:induction false} RunRetaining(r: Run, ops: seq<Op>, m: nat)
    requires Valid(r.sys.store) && Sized(r) && Retaining(r, m) && m <= r.sys.store.capacity
    requires AllSucceed(r.sys.store.capacity, ops) && AtMost(m, ops)
    ensures Retaining(RunAll(r, ops), m)
  {
    hide Retaining, RunStep;
    if ops == [] {
    } else {
      RunRetaining(r, ops[..|ops| - 1], m);
      RunExtends(r, ops[..|ops| - 1]);
      StepRetaining(RunAll(r, ops[..|ops| - 1]), ops[|ops| - 1], m);
    }
  }

  lemma {:induction false} UsedBounds(s: Store, k: nat, c: nat)
    requires Valid(s) && k <= |s.slots|
    requires forall j :: 0 <= j < k && j != s.writeIdx ==> s.slots[j].used >= c
    ensures UsedBytes(s, k) <= k * s.capacity
    ensures UsedBytes(s, k) >= (if s.writeIdx < k then k - 1 else k) * c
  {
    if k == 0 {
    } else {
      UsedBounds(s, k - 1, c);
      assert k * s.capacity == (k - 1) * s.capacity + s.capacity;
      assert k * c == (k - 1) * c + c;
      if s.writeIdx < k - 1 {
        assert (k - 1) * c == (k - 2) * c + c;
      }
    }
  }

  lemma {:induction false} FilesBytesAreUsed(r: Run, m: nat, k: nat)
    requires Valid(r.sys.store) && Sized(r) && Retaining(r, m) && k <= |r.turns|
    ensures FilesBytes(r.sys.index.entries, k) == UsedBytes(r.sys.store, k)
  {
    if k == 0 {
    } else {
      FilesBytesAreUsed(r, m, k - 1);
    }
  }

  /** The indexed bytes never exceed n files and, once there have been n-1 rotations, never fall below n-1
      files less what a largest record can leave unused in each; and each rotation was paid for with at least
      that much accepted data. */
  ghost predicate Retained(r: Run, n: nat, capacity: nat, m: nat) {
    var live := EntryBytes(r.sys.index.entries);
    && live <= n * capacity
    && (r.rotations >= n - 1 ==> live >= (n - 1) * (capacity - m + 1))
    && r.rotations * (capacity - m + 1) <= AcceptedBytes(r.hist)
  }

  lemma LiveBytesBounds(r: Run, m: nat)
    requires Inv(r) && Retaining(r, m) && m <= r.sys.store.capacity
    ensures Retained(r, |r.turns|, r.sys.store.capacity, m)
  {
    InvIds(r);
    forall e | e in r.sys.index.entries ensures e.loc.poolIdx < |r.turns| {
    }
    hide Inv, EntryBytes, FilesBytes, UsedBytes, AcceptedBytes, FileBytes;
    BytesByFile(r.sys.index.entries, |r.turns|);
    FilesBytesAreUsed(r, m, |r.turns|);
    UsedBounds(r.sys.store, |r.turns|, if r.rotations >= |r.turns| - 1 then r.sys.store.capacity - m + 1 else 0);
  }

  /** From a fresh start, when every record fits in `m` bytes and no write fails. */
  lemma RetentionBounds(n: nat, capacity: nat, now: Instant, ops: seq<Op>, m: nat)
    requires 0 < n < U64 && m <= capacity && AllSucceed(capacity, ops) && AtMost(m, ops)
    ensures Retained(RunAll(Fresh(n, capacity, now), ops), n, capacity, m)
  {
    FreshRetaining(n, capacity, now, m);
    FreshStart(n, capacity, now);
    hide *;
    var r0 := Fresh(n, capacity, now);
    RunRetaining(r0, ops, m);
    RunExtendsFields(r0, ops);
    RunAllInv(r0, ops);
    LiveBytesBounds(RunAll(r0, ops), m);
  }

  lemma RunExtendsFields(r: Run, ops: seq<Op>)
    requires Valid(r.sys.store) && Sized(r)
    ensures RunAll(r, ops).sys.store.capacity == r.sys.store.capacity
  {
    RunExtends(r, ops);
  }

  lemma FreshRetaining(n: nat, capacity: nat, now: Instant, m: nat)
    requires 0 < n < U64
    ensures Fresh(n, capacity, now).sys.store.capacity == capacity && Retaining(Fresh(n, capacity, now), m)
  {
    var r := Fresh(n, capacity, now);
    FreshStart(n, capacity, now);
    FreshBlank(n, capacity, now);
    hide Fresh, Inv, Valid;
  }

  lemma FreshBlank(n: nat, capacity: nat, now: Instant)
    requires 0 < n < U64
    ensures var s := Fresh(n, capacity, now).sys.store;
            && s.capacity == capacity && s.writeIdx == 0 && |s.slots| == n
            && forall j: nat :: j < n ==> s.slots[j].used == 0
  {
    FreshFiles(n, capacity, now, 0);
    hide FreshStore, ReadPoolId, FileScan;
    forall j: nat | j < n ensures Fresh(n, capacity, now).sys.store.slots[j].used == 0 {
      FreshFiles(n, capacity, now, j);
    }
  }
}
