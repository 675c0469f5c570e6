/** The in-memory index of live segments. The ordered map is represented by its values in key order; the key of an
    entry is its (camera id, start, segment id). */
module IndexModel {
  import opened Bytes
  import opened Sorting
  import opened PoolModel
  import opened PoolScan

  datatype Meta = Meta(id: nat, camera: seq<byte>, start: Instant, end: Instant, loc: Loc)
  datatype Index = Index(entries: seq<Meta>, counter: nat)

  const EMPTY_INDEX: Index := Index([], 0)

  predicate LexLe(a: seq<byte>, b: seq<byte>) {
    a == [] || (b != [] && (a[0] < b[0] || (a[0] == b[0] && LexLe(a[1..], b[1..]))))
  }

  predicate KeyLe(a: Meta, b: Meta) {
    if a.camera == b.camera then a.start < b.start || (a.start == b.start && a.id <= b.id)
    else LexLe(a.camera, b.camera)
  }

  lemma {:induction false} LexTotal(a: seq<byte>, b: seq<byte>)
    ensures LexLe(a, b) || LexLe(b, a)
    ensures LexLe(a, b) && LexLe(b, a) ==> a == b
  {
    if a == [] || b == [] || a[0] != b[0] {
    } else {
      LexTotal(a[1..], b[1..]);
      assert a == [a[0]] + a[1..] && b == [b[0]] + b[1..];
    }
  }

  lemma {:induction false} LexTransitive(a: seq<byte>, b: seq<byte>, c: seq<byte>)
    requires LexLe(a, b) && LexLe(b, c)
    ensures LexLe(a, c)
  {
    if a == [] || a[0] != b[0] || b[0] != c[0] {
    } else {
      LexTransitive(a[1..], b[1..], c[1..]);
    }
  }

  /** That is the order of dictionaries: a beginning comes first, else the first different byte decides. */
  lemma {:induction false} LexLeIff(a: seq<byte>, b: seq<byte>)
    ensures LexLe(a, b) <==> a <= b || exists i :: LessAt(a, b, i)
  {
    hide LessAt;
    FirstLess(a, b);
    if a == [] || b == [] || a[0] != b[0] {
    } else {
      LexLeIff(a[1..], b[1..]);
      assert a <= b <==> a[1..] <= b[1..] by {
        assert a == [a[0]] + a[1..] && b == [b[0]] + b[1..];
      }
      if i :| LessAt(a, b, i) {
        assert LessAt(a[1..], b[1..], i - 1);
      }
      if i :| LessAt(a[1..], b[1..], i) {
        assert LessAt(a, b, i + 1) <==> LessAt(a[1..], b[1..], i + 1 - 1);
      }
    }
  }

  lemma FirstLess(a: seq<byte>, b: seq<byte>)
    ensures a == [] || b == [] ==> forall i :: !LessAt(a, b, i)
    ensures a != [] && b != [] && a[0] != b[0] ==> ((exists i :: LessAt(a, b, i)) <==> a[0] < b[0]) && !(a <= b)
    ensures a != [] && b != [] && a[0] == b[0] ==>
              forall i: int :: LessAt(a, b, i) <==> LessAt(a[1..], b[1..], i - 1)
  {
    if a == [] || b == [] {
    } else if a[0] != b[0] {
      assert a[0] < b[0] ==> LessAt(a, b, 0);
      assert forall i :: 0 < i && LessAt(a, b, i) ==> a[..i][0] == b[..i][0];
    } else {
      forall i: int ensures LessAt(a, b, i) <==> LessAt(a[1..], b[1..], i - 1) {
        if 0 < i < |a| && i < |b| {
          assert a[..i] == [a[0]] + a[1..][..i - 1] && b[..i] == [b[0]] + b[1..][..i - 1];
        }
      }
    }
  }

  predicate LessAt(a: seq<byte>, b: seq<byte>, i: int) {
    0 <= i < |a| && i < |b| && a[..i] == b[..i] && a[i] < b[i]
  }

  lemma LexOrder()
    ensures TotalOrder(LexLe)
  {
    forall a, b ensures LexLe(a, b) || LexLe(b, a) {
      LexTotal(a, b);
    }
    forall a, b, c | LexLe(a, b) && LexLe(b, c) ensures LexLe(a, c) {
      LexTransitive(a, b, c);
    }
  }

  lemma KeyOrder()
    ensures TotalOrder(KeyLe)
  {
    forall a, b ensures KeyLe(a, b) || KeyLe(b, a) {
      LexTotal(a.camera, b.camera);
    }
    forall a, b, c | KeyLe(a, b) && KeyLe(b, c) ensures KeyLe(a, c) {
      if a.camera != b.camera && b.camera != c.camera {
        LexTransitive(a.camera, b.camera, c.camera);
        LexTotal(a.camera, b.camera);
      }
    }
  }

  function Insert(ix: Index, camera: seq<byte>, start: Instant, end: Instant, loc: Loc): Index {
    Index(InsertBy(ix.entries, Meta(ix.counter, camera, start, end, loc), KeyLe), ix.counter + 1)
  }

  function Evict(ix: Index, poolIdx: nat): Index {
    ix.(entries := Filter(ix.entries, (m: Meta) => m.loc.poolIdx != poolIdx))
  }

  function ForCamera(ix: Index, camera: seq<byte>): seq<Meta> {
    Filter(ix.entries, (m: Meta) => m.camera == camera)
  }

  function InRange(ix: Index, camera: seq<byte>, from: Instant, to: Instant): seq<Meta> {
    Filter(ix.entries, (m: Meta) => m.camera == camera && m.start < to && m.end > from)
  }

  // ---- what the lookups answer ----

  /** In time order; segments that start together in the order they were numbered. */
  ghost predicate Chronological(segs: seq<Meta>) {
    forall a, b :: 0 <= a < b < |segs| ==>
      segs[a].start < segs[b].start || (segs[a].start == segs[b].start && segs[a].id <= segs[b].id)
  }

  lemma KeyOrderIsTime(segs: seq<Meta>, camera: seq<byte>)
    requires Sorted(segs, KeyLe) && forall m :: m in segs ==> m.camera == camera
    ensures Chronological(segs)
  {
    forall a, b | 0 <= a < b < |segs|
      ensures segs[a].start < segs[b].start || (segs[a].start == segs[b].start && segs[a].id <= segs[b].id)
    {
      assert segs[a] in segs && segs[b] in segs && KeyLe(segs[a], segs[b]);
    }
  }

  /** The list is the camera's entries and, in an index in key order, chronological. */
  ghost predicate ListsAll(entries: seq<Meta>, camera: seq<byte>, list: seq<Meta>) {
    && (forall m :: m in list <==> m in entries && m.camera == camera)
    && (Sorted(entries, KeyLe) ==> Chronological(list))
  }

  lemma ForCameraListsAll(ix: Index, camera: seq<byte>)
    ensures ListsAll(ix.entries, camera, ForCamera(ix, camera))
  {
    if Sorted(ix.entries, KeyLe) {
      FilterKeepsSorted(ix.entries, (m: Meta) => m.camera == camera, KeyLe);
      KeyOrderIsTime(ForCamera(ix, camera), camera);
    }
  }

  /** The segment is recording at instant `t`. */
  predicate Recording(m: Meta, t: int) {
    m.start <= t < m.end
  }

  ghost predicate Overlaps(m: Meta, from: Instant, to: Instant) {
    exists t: int :: Recording(m, t) && from <= t < to
  }

  /** The list is the camera's entries that are recording at some instant of the range, and chronological; entries
      and ranges that contain no instant are compared by their ends in the same way. */
  ghost predicate ListsRange(entries: seq<Meta>, camera: seq<byte>, from: Instant, to: Instant, list: seq<Meta>) {
    && (forall m :: m in list ==> m in entries && m.camera == camera)
    && (forall m :: m in entries && m.camera == camera && m.start < m.end && from < to ==>
          (m in list <==> Overlaps(m, from, to)))
    && (forall m :: m in entries && m.camera == camera && (m.start >= m.end || from >= to) ==>
          (m in list <==> from < m.end && m.start < to))
    && (Sorted(entries, KeyLe) ==> Chronological(list))
  }

  lemma OverlapsIff(m: Meta, from: Instant, to: Instant)
    requires m.start < m.end && from < to
    ensures Overlaps(m, from, to) <==> m.start < to && from < m.end
  {
    assert m.start < to && from < m.end ==> Recording(m, if m.start < from then from else m.start);
  }

  lemma InRangeListsRange(ix: Index, camera: seq<byte>, from: Instant, to: Instant)
    ensures ListsRange(ix.entries, camera, from, to, InRange(ix, camera, from, to))
  {
    var list := InRange(ix, camera, from, to);
    forall m | m in ix.entries && m.camera == camera && m.start < m.end && from < to
      ensures m in list <==> Overlaps(m, from, to)
    {
      OverlapsIff(m, from, to);
    }
    if Sorted(ix.entries, KeyLe) {
      FilterKeepsSorted(ix.entries, (m: Meta) => m.camera == camera && m.start < to && m.end > from, KeyLe);
      KeyOrderIsTime(list, camera);
    }
  }

  /** An insertion adds one entry, numbered by the counter, and keeps key order. */
  lemma InsertedEntry(ix: Index, camera: seq<byte>, start: Instant, end: Instant, loc: Loc)
    ensures var ix' := Insert(ix, camera, start, end, loc);
            && ix'.counter == ix.counter + 1 && |ix'.entries| == |ix.entries| + 1
            && (forall m :: m in ix'.entries <==> m in ix.entries || m == Meta(ix.counter, camera, start, end, loc))
            && (Sorted(ix.entries, KeyLe) ==> Sorted(ix'.entries, KeyLe))
  {
    hide KeyLe, InsertBy;
    var x := Meta(ix.counter, camera, start, end, loc);
    forall m ensures m in InsertBy(ix.entries, x, KeyLe) <==> m in ix.entries || m == x {
      InsertMembers(ix.entries, x, KeyLe, m);
    }
    if Sorted(ix.entries, KeyLe) {
      KeyOrder();
      InsertKeepsSorted(ix.entries, x, KeyLe);
    }
  }

  function InsertScanned(ix: Index, r: Scanned): Index {
    Insert(ix, r.camera, r.start, r.end, Loc(r.poolIdx, r.poolId, r.offset, r.size))
  }

  function Rebuild(records: seq<Scanned>): Index {
    if records == [] then EMPTY_INDEX
    else InsertScanned(Rebuild(records[..|records| - 1]), records[|records| - 1])
  }

  /** The entry the `i`-th scanned record gets. */
  function ScannedMeta(records: seq<Scanned>, i: nat): Meta
    requires i < |records|
  {
    var r := records[i];
    Meta(i, r.camera, r.start, r.end, Loc(r.poolIdx, r.poolId, r.offset, r.size))
  }

  lemma {:induction false} RebuildSorted(records: seq<Scanned>)
    ensures Sorted(Rebuild(records).entries, KeyLe)
  {
    if records == [] {
    } else {
      RebuildSorted(records[..|records| - 1]);
      KeyOrder();
      hide KeyLe;
      InsertKeepsSorted(Rebuild(records[..|records| - 1]).entries,
                        ScannedMeta(records, |records| - 1).(id := Rebuild(records[..|records| - 1]).counter), KeyLe);
    }
  }

  lemma {:induction false} RebuildMembers(records: seq<Scanned>)
    ensures var ix := Rebuild(records);
            ix.counter == |records| == |ix.entries|
            && (forall i: nat :: i < |records| ==> ScannedMeta(records, i) in ix.entries)
            && (forall m :: m in ix.entries ==> m.id < |records| && m == ScannedMeta(records, m.id))
  {
    hide KeyLe, InsertBy;
    if records == [] {
    } else {
      var n := |records| - 1;
      var init := records[..n];
      RebuildMembers(init);
      assert forall i: nat :: i < n ==> ScannedMeta(init, i) == ScannedMeta(records, i);
      forall m ensures m in Rebuild(records).entries <==> m in Rebuild(init).entries || m == ScannedMeta(records, n) {
        InsertMembers(Rebuild(init).entries, ScannedMeta(records, n), KeyLe, m);
      }
    }
  }

  /** A rebuilt index holds exactly the scanned records, numbered 0..k-1 in scan order. */
  lemma RebuildEntries(records: seq<Scanned>)
    ensures var ix := Rebuild(records);
            ix.counter == |records| == |ix.entries| && Sorted(ix.entries, KeyLe)
            && (forall i: nat :: i < |records| ==> ScannedMeta(records, i) in ix.entries)
            && (forall m :: m in ix.entries ==> m.id < |records| && m == ScannedMeta(records, m.id))
  {
    RebuildSorted(records);
    RebuildMembers(records);
  }
}

/** The index object shared by the writer and the request handlers. */
module SegmentIndexClass {
  import opened Bytes
  import opened Sorting
  import opened PoolModel
  import opened PoolScan
  import opened IndexModel

  class SegmentIndex {
    var entries: seq<Meta>
    var segmentCounter: nat

    function State(): Index
      reads this
    {
      Index(entries, segmentCounter)
    }

    constructor ()
      ensures State() == EMPTY_INDEX
    {
      entries, segmentCounter := [], 0;
    }

    method Insert(camera: seq<byte>, start: Instant, end: Instant, loc: Loc) returns (id: nat)
      modifies this
      ensures id == old(segmentCounter)
      ensures State() == IndexModel.Insert(old(State()), camera, start, end, loc)
    {
      id := segmentCounter;
      segmentCounter := segmentCounter + 1;
      entries := InsertBy(entries, Meta(id, camera, start, end, loc), KeyLe);
    }

    method EvictPool(poolIdx: nat)
      modifies this
      ensures State() == Evict(old(State()), poolIdx)
    {
      entries := Filter(entries, (m: Meta) => m.loc.poolIdx != poolIdx);
    }

    method RebuildFromScanned(records: seq<Scanned>)
      modifies this
      ensures State() == Rebuild(records)
    {
      entries, segmentCounter := [], 0;
      for i := 0 to |records|
        invariant State() == Rebuild(records[..i])
      {
        var r := records[i];
        assert records[..i + 1][..i] == records[..i];
        var _ := this.Insert(r.camera, r.start, r.end, Loc(r.poolIdx, r.poolId, r.offset, r.size));
      }
      assert records[..|records|] == records;
    }

    /** The camera ids in the index, each once, in order. */
    method Cameras() returns (ids: seq<seq<byte>>)
      ensures forall c :: c in ids <==> exists m :: m in entries && m.camera == c
      ensures forall i, j :: 0 <= i < j < |ids| ==> LexLe(ids[i], ids[j]) && ids[i] != ids[j]
    {
      var all := seq(|entries|, i requires 0 <= i < |entries| reads this => entries[i].camera);
      var ordered := SortBy(all, LexLe);
      LexOrder();
      SortSorts(all, LexLe);
      ids := Dedup(ordered);
      forall c ensures c in ids <==> exists m :: m in entries && m.camera == c {
        SortMembers(all, LexLe, c);
        if c in all {
          var i :| 0 <= i < |all| && all[i] == c;
          assert entries[i] in entries;
        }
        if m :| m in entries && m.camera == c {
          var i :| 0 <= i < |entries| && entries[i] == m;
          assert all[i] == c;
        }
      }
    }

    /** Drops repeated neighbours. */
    static method Dedup(ordered: seq<seq<byte>>) returns (ids: seq<seq<byte>>)
      requires Sorted(ordered, LexLe)
      ensures forall c :: c in ids <==> c in ordered
      ensures forall i, j :: 0 <= i < j < |ids| ==> LexLe(ids[i], ids[j]) && ids[i] != ids[j]
    {
      ids := [];
      for i := 0 to |ordered|
        invariant forall c :: c in ids <==> c in ordered[..i]
        invariant forall k, l :: 0 <= k < l < |ids| ==> LexLe(ids[k], ids[l]) && ids[k] != ids[l]
        invariant ids == [] <==> i == 0
        invariant i > 0 ==> ids[|ids| - 1] == ordered[i - 1]
      {
        assert ordered[..i + 1] == ordered[..i] + [ordered[i]];
        if ids == [] || ids[|ids| - 1] != ordered[i] {
          forall k | 0 <= k < |ids| ensures LexLe(ids[k], ordered[i]) && ids[k] != ordered[i] {
            assert ids[k] in ids;
            LexTotal(ordered[i - 1], ordered[i]);
          }
          ids := ids + [ordered[i]];
        }
      }
      assert ordered[..|ordered|] == ordered;
    }
  }
}
