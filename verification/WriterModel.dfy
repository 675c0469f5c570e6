/** The writer's cycle (check, evict, append or rotate, insert) and whole runs of it, with a history of what
    was accepted. `Inv` is the storage invariant: it holds after any run, whatever fails on the way. */
module WriterModel {
  import opened Bytes
  import opened RecordFormat
  import opened PoolModel
  import opened IndexModel
  import opened Sorting

  datatype Sys = Sys(store: Store, index: Index)

  /** One request with what the outside world answers while it is served. */
  datatype Op = Op(req: Request, env: Env)

  /** One iteration of the writer loop. */
  function Step(sys: Sys, op: Op): Sys
    requires Valid(sys.store)
  {
    var q := op.req;
    var index := if Full(sys.store, RecordSize(q)) then Evict(sys.index, NextIdx(sys.store)) else sys.index;
    var (store, outcome) := Append(sys.store, q, op.env);
    match outcome
    case Placed(loc) => Sys(store, Insert(index, q.camera, q.start, q.end, loc))
    case Refused(_) => Sys(store, index)
  }

  /** An accepted record: its index entry, its bytes, how often its file had been rotated into when it was
      written, and how many rotations there had been in all. */
  datatype Accepted = Accepted(meta: Meta, raw: seq<byte>, turn: nat, gen: nat)

  /** What a failed record write left behind: the bytes that reached the file, and where. */
  datatype Remnant = Remnant(file: nat, turn: nat, at: nat, bytes: seq<byte>)

  /** The system with its history. `turns[j]` counts the rotations into file j, `base[j]` is its first id and
      `previous[j]` the content it had when last rotated into; `remnants` are those of all failed record writes. */
  datatype Run = Run(sys: Sys, hist: seq<Accepted>, turns: seq<nat>, base: seq<nat>, rotations: nat,
                     previous: seq<seq<byte>>, remnants: seq<Remnant>)

  // ---- the phases of one iteration ----

  function Evicted(r: Run): Run
    requires Valid(r.sys.store)
  {
    r.(sys := r.sys.(index := Evict(r.sys.index, NextIdx(r.sys.store))))
  }

  function Rotated(r: Run, now: Instant, io: Io): Run
    requires Valid(r.sys.store) && |r.turns| == |r.previous| == |r.sys.store.slots|
  {
    var j := NextIdx(r.sys.store);
    r.(sys := r.sys.(store := Rotate(r.sys.store, now, io)),
       turns := r.turns[j := r.turns[j] + 1], rotations := r.rotations + 1,
       previous := r.previous[j := r.sys.store.files[j]])
  }

  function Recorded(r: Run, q: Request, io: Io): Run
    requires Valid(r.sys.store) && |r.turns| == |r.sys.store.slots| && !Full(r.sys.store, RecordSize(q))
  {
    var (store, outcome) := WriteRecord(r.sys.store, q, io);
    match outcome
    case Refused(_) =>
      var w := r.sys.store.writeIdx;
      r.(sys := r.sys.(store := store),
         remnants := r.remnants + [Remnant(w, r.turns[w], POOL_HEADER + r.sys.store.slots[w].used,
                                           Written(EncodeRecord(q), io))])
    case Placed(loc) =>
      r.(sys := Sys(store, Insert(r.sys.index, q.camera, q.start, q.end, loc)),
         hist := r.hist + [Accepted(Meta(r.sys.index.counter, q.camera, q.start, q.end, loc), EncodeRecord(q),
                                    r.turns[loc.poolIdx], r.rotations)])
  }

  predicate Sized(r: Run) {
    |r.turns| == |r.base| == |r.previous| == |r.sys.store.slots|
  }

  function RunStep(r: Run, op: Op): (r': Run)
    requires Valid(r.sys.store) && Sized(r)
    ensures Valid(r'.sys.store) && Sized(r') && |r'.turns| == |r.turns|
  {
    var full := Full(r.sys.store, RecordSize(op.req));
    var r1 := if full then Evicted(r) else r;
    if RecordSize(op.req) > r.sys.store.capacity then r1
    else if full then
      var r2 := Rotated(r1, op.env.now, op.env.header);
      if op.env.header.Failed? then r2 else Recorded(r2, op.req, op.env.record)
    else Recorded(r1, op.req, op.env.record)
  }

  function RunAll(r: Run, ops: seq<Op>): (r': Run)
    requires Valid(r.sys.store) && Sized(r)
    ensures Valid(r'.sys.store) && Sized(r') && |r'.turns| == |r.turns|
  {
    if ops == [] then r else RunStep(RunAll(r, ops[..|ops| - 1]), ops[|ops| - 1])
  }

  lemma {:induction false} RunAllConcat(r: Run, a: seq<Op>, b: seq<Op>)
    requires Valid(r.sys.store) && Sized(r)
    ensures RunAll(r, a + b) == RunAll(RunAll(r, a), b)
  {
    hide RunStep, Valid, Sized;
    if b == [] {
      assert a + b == a;
    } else {
      assert (a + b)[..|a + b| - 1] == a + b[..|b| - 1];
      RunAllConcat(r, a, b[..|b| - 1]);
    }
  }

  /** The history only watches: the system it rides on takes exactly the writer's step. */
  lemma RunStepIsStep(r: Run, op: Op)
    requires Valid(r.sys.store) && Sized(r)
    ensures RunStep(r, op).sys == Step(r.sys, op)
  {
  }

  // ---- the storage invariant ----

  function PoolIdAfter(base: nat, n: nat, turn: nat): nat {
    (base + n * turn) % U64
  }

  lemma PoolIdNext(base: nat, n: nat, turn: nat)
    ensures PoolIdAfter(base, n, turn + 1) == (PoolIdAfter(base, n, turn) + n) % U64
  {
    var a := base + n * turn;
    assert n * (turn + 1) == n * turn + n;
    assert (a + n) % U64 == (a % U64 + n) % U64;
  }

  /** Ids of one file repeat only after 2^64 / n rotations into it. */
  lemma PoolIdUnique(base: nat, n: nat, t: nat, u: nat)
    requires n > 0 && t <= u && n * u < U64
    requires PoolIdAfter(base, n, t) == PoolIdAfter(base, n, u)
    ensures t == u
  {
    var d := n * u - n * t;
    assert d == n * (u - t);
    assert n * t <= n * u by {
      assert d >= 0;
    }
    var a := base + n * t;
    assert (a + d) % U64 == a % U64 && 0 <= d < U64;
    assert d == 0;
  }

  ghost predicate Ids(r: Run) {
    && Valid(r.sys.store) && Sized(r)
    && (forall j {:trigger r.turns[j]} {:trigger r.previous[j]} :: 0 <= j < |r.turns| ==>
          |r.previous[j]| == POOL_HEADER + r.sys.store.capacity
          && r.sys.store.slots[j].poolId == PoolIdAfter(r.base[j], |r.turns|, r.turns[j]))
  }

  ghost predicate Placement(r: Run, h: Accepted)
    requires Sized(r)
  {
    && h.meta.loc.poolIdx < |r.turns|
    && POOL_HEADER <= h.meta.loc.offset && RECORD_HEADER <= h.meta.loc.size == |h.raw|
    && End(h) <= POOL_HEADER + r.sys.store.capacity
    && h.turn <= r.turns[h.meta.loc.poolIdx]
    && h.gen <= r.rotations
    && h.meta.loc.poolId == PoolIdAfter(r.base[h.meta.loc.poolIdx], |r.turns|, h.turn)
  }

  ghost predicate History(r: Run)
    requires Sized(r)
  {
    && r.sys.index.counter == |r.hist|
    && (forall i :: 0 <= i < |r.hist| ==> r.hist[i].meta.id == i && Placement(r, r.hist[i]))
    && (forall i, k :: 0 <= i < k < |r.hist| && SamePass(r.hist[i], r.hist[k]) ==>
          End(r.hist[i]) <= r.hist[k].meta.loc.offset)
  }

  /** Written to the same file between the same two rotations into it. */
  predicate SamePass(a: Accepted, b: Accepted) {
    a.meta.loc.poolIdx == b.meta.loc.poolIdx && a.turn == b.turn
  }

  function End(h: Accepted): nat {
    h.meta.loc.offset + h.meta.loc.size
  }

  /** Not rotated over since it was written. */
  predicate Live(r: Run, h: Accepted) {
    h.meta.loc.poolIdx < |r.turns| && h.turn == r.turns[h.meta.loc.poolIdx]
  }

  /** The record's bytes are on disk, in the used part of its file. */
  ghost predicate Intact(s: Store, h: Accepted)
    requires Valid(s)
  {
    && h.meta.loc.poolIdx < |s.slots|
    && h.meta.loc.offset <= End(h) <= POOL_HEADER + s.slots[h.meta.loc.poolIdx].used
    && s.files[h.meta.loc.poolIdx][h.meta.loc.offset..End(h)] == h.raw
  }

  ghost predicate LiveIntact(r: Run)
    requires Valid(r.sys.store)
  {
    forall i :: 0 <= i < |r.hist| && Live(r, r.hist[i]) ==> Intact(r.sys.store, r.hist[i])
  }

  ghost predicate IndexLive(r: Run) {
    && Sorted(r.sys.index.entries, KeyLe)
    && (forall m :: m in r.sys.index.entries ==>
          m.id < |r.hist| && m == r.hist[m.id].meta && Live(r, r.hist[m.id]))
  }

  ghost predicate Inv(r: Run) {
    Ids(r) && History(r) && LiveIntact(r) && IndexLive(r)
  }

  lemma InvIds(r: Run)
    requires Inv(r)
    ensures Ids(r) && Valid(r.sys.store) && Sized(r)
  {
  }

  lemma EvictedInv(r: Run)
    requires Inv(r)
    ensures Inv(Evicted(r))
    ensures forall m :: m in Evicted(r).sys.index.entries <==>
              m in r.sys.index.entries && m.loc.poolIdx != NextIdx(r.sys.store)
  {
    hide PoolIdAfter, Intact;
    FilterKeepsSorted(r.sys.index.entries, (m: Meta) => m.loc.poolIdx != NextIdx(r.sys.store), KeyLe);
  }

  /** Rotating is safe once nothing in the index lies in the next file, however much of the header got out. */
  lemma RotatedInv(r: Run, now: Instant, io: Io)
    requires Inv(r)
    requires forall m :: m in r.sys.index.entries ==> m.loc.poolIdx != NextIdx(r.sys.store)
    ensures Inv(Rotated(r, now, io))
  {
    hide PoolIdAfter, PoolHeader, KeyLe;
    var s, r' := r.sys.store, Rotated(r, now, io);
    var j := NextIdx(s);
    PoolIdNext(r.base[j], |r.turns|, r.turns[j]);
    assert Ids(r');
    forall i | 0 <= i < |r.hist| && Live(r', r.hist[i])
      ensures Intact(r'.sys.store, r.hist[i])
    {
      assert Placement(r, r.hist[i]);
      assert r.hist[i].meta.loc.poolIdx != j;
      assert Live(r, r.hist[i]);
    }
    assert forall i :: 0 <= i < |r.hist| ==> Placement(r, r.hist[i]) ==> Placement(r', r.hist[i]);
  }

  /** Writing behind the used part leaves every live record as it was. */
  lemma WriteKeepsIntact(s: Store, q: Request, io: Io, h: Accepted)
    requires Valid(s) && !Full(s, RecordSize(q)) && Intact(s, h)
    ensures Intact(WriteRecord(s, q, io).0, h)
  {
    hide EncodeRecord;
    var w := s.writeIdx;
    if h.meta.loc.poolIdx == w {
      PatchRange(s.files[w], POOL_HEADER + s.slots[w].used, Written(EncodeRecord(q), io), h.meta.loc.offset, End(h));
    }
  }

  lemma WrittenIsIntact(s: Store, q: Request, h: Accepted)
    requires Valid(s) && !Full(s, RecordSize(q))
    requires Placed(h.meta.loc) == WriteRecord(s, q, Done).1 && h.raw == EncodeRecord(q)
    ensures Intact(WriteRecord(s, q, Done).0, h)
  {
    var w := s.writeIdx;
    var at := POOL_HEADER + s.slots[w].used;
    PatchRange(s.files[w], at, EncodeRecord(q), at, at + |EncodeRecord(q)|);
  }

  lemma RecordedIntact(r: Run, q: Request, io: Io)
    requires Inv(r) && !Full(r.sys.store, RecordSize(q))
    ensures Valid(Recorded(r, q, io).sys.store) && LiveIntact(Recorded(r, q, io))
  {
    hide EncodeRecord, PoolIdAfter, KeyLe, Intact, Insert;
    var s, r' := r.sys.store, Recorded(r, q, io);
    forall i | 0 <= i < |r'.hist| && Live(r', r'.hist[i])
      ensures Intact(r'.sys.store, r'.hist[i])
    {
      if i < |r.hist| {
        assert Live(r, r.hist[i]);
        WriteKeepsIntact(s, q, io, r.hist[i]);
      } else {
        WrittenIsIntact(s, q, r'.hist[i]);
      }
    }
  }

  /** A new record lies behind everything written to its file since the last rotation into it. */
  lemma RecordedBehind(r: Run, q: Request)
    requires Inv(r) && !Full(r.sys.store, RecordSize(q))
    ensures var h := Recorded(r, q, Done).hist[|r.hist|];
            forall i :: 0 <= i < |r.hist| && SamePass(r.hist[i], h) ==> End(r.hist[i]) <= h.meta.loc.offset
  {
    hide EncodeRecord, PoolIdAfter, KeyLe, Insert;
    var h := Recorded(r, q, Done).hist[|r.hist|];
    forall i | 0 <= i < |r.hist| && SamePass(r.hist[i], h)
      ensures End(r.hist[i]) <= h.meta.loc.offset
    {
      assert Live(r, r.hist[i]);
      assert Intact(r.sys.store, r.hist[i]);
    }
  }

  lemma RecordedHistory(r: Run, q: Request)
    requires Inv(r) && !Full(r.sys.store, RecordSize(q))
    ensures Ids(Recorded(r, q, Done)) && History(Recorded(r, q, Done))
  {
    hide EncodeHeader, PoolIdAfter, KeyLe, LiveIntact, IndexLive, InsertBy;
    RecordedBehind(r, q);
    var r' := Recorded(r, q, Done);
    var n := |r.hist|;
    assert r'.hist[..n] == r.hist;
    assert forall i :: 0 <= i < n ==> r'.hist[i] == r.hist[i] && (Placement(r, r.hist[i]) ==> Placement(r', r.hist[i]));
  }

  lemma RecordedIndex(r: Run, q: Request)
    requires Inv(r) && !Full(r.sys.store, RecordSize(q))
    ensures IndexLive(Recorded(r, q, Done))
  {
    hide EncodeHeader, PoolIdAfter, KeyLe, LiveIntact, Placement, InsertBy;
    var h, r' := Recorded(r, q, Done).hist[|r.hist|], Recorded(r, q, Done);
    KeyOrder();
    InsertKeepsSorted(r.sys.index.entries, h.meta, KeyLe);
    forall m | m in r'.sys.index.entries
      ensures m.id < |r'.hist| && m == r'.hist[m.id].meta && Live(r', r'.hist[m.id])
    {
      InsertMembers(r.sys.index.entries, h.meta, KeyLe, m);
    }
  }

  lemma RecordedInv(r: Run, q: Request, io: Io)
    requires Inv(r) && !Full(r.sys.store, RecordSize(q))
    ensures Inv(Recorded(r, q, io))
  {
    hide EncodeHeader, PoolIdAfter, KeyLe, LiveIntact, Patch;
    RecordedIntact(r, q, io);
    if io.Done? {
      hide Inv;
      RecordedHistory(r, q);
      RecordedIndex(r, q);
    }
  }

  lemma RunStepInv(r: Run, op: Op)
    requires Inv(r)
    ensures Inv(RunStep(r, op))
  {
    var full := Full(r.sys.store, RecordSize(op.req));
    var r1 := if full then Evicted(r) else r;
    if full {
      EvictedInv(r);
    }
    if RecordSize(op.req) <= r.sys.store.capacity {
      if full {
        RotatedInv(r1, op.env.now, op.env.header);
        if op.env.header.Done? {
          RecordedInv(Rotated(r1, op.env.now, op.env.header), op.req, op.env.record);
        }
      } else {
        RecordedInv(r, op.req, op.env.record);
      }
    }
  }

  lemma {:induction false} RunAllInv(r: Run, ops: seq<Op>)
    requires Inv(r)
    ensures Inv(RunAll(r, ops))
  {
    if ops == [] {
    } else {
      RunAllInv(r, ops[..|ops| - 1]);
      RunStepInv(RunAll(r, ops[..|ops| - 1]), ops[|ops| - 1]);
    }
  }

  function Payload(h: Accepted): seq<byte>
    requires |h.raw| >= RECORD_HEADER
  {
    h.raw[RECORD_HEADER..]
  }

  lemma EntryReadable(r: Run, m: Meta)
    requires Inv(r) && m in r.sys.index.entries
    ensures var s := r.sys.store;
            && m.loc.poolIdx < |s.slots| && m.id < |r.hist| && |r.hist[m.id].raw| >= RECORD_HEADER
            && r.hist[m.id].meta == m && m.loc.poolId == s.slots[m.loc.poolIdx].poolId
            && POOL_HEADER <= m.loc.offset
            && m.loc.offset + m.loc.size <= POOL_HEADER + s.slots[m.loc.poolIdx].used <= POOL_HEADER + s.capacity
            && Addressable(s, m.loc) && ReadSegment(s, m.loc) == Some(Payload(r.hist[m.id]))
  {
    hide PoolIdAfter, KeyLe;
    var h := r.hist[m.id];
    assert Placement(r, h) && Live(r, h) && Intact(r.sys.store, h);
    var f := r.sys.store.files[m.loc.poolIdx];
    assert f[m.loc.offset + RECORD_HEADER..End(h)] == f[m.loc.offset..End(h)][RECORD_HEADER..];
    assert r.sys.store.slots[m.loc.poolIdx].poolId
           == PoolIdAfter(r.base[m.loc.poolIdx], |r.turns|, r.turns[m.loc.poolIdx]);
  }
}
