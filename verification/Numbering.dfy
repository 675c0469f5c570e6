/** When a manifest that numbers its entries names the right segments: HLS counts from MEDIA-SEQUENCE, DASH from
    startNumber, the store from a counter all cameras share. */
module Numbering {
  import opened Bytes
  import opened PoolModel
  import opened IndexModel
  import opened Sorting
  import opened WriterModel
  import opened RingHistory
  import opened LiveWindow

  /** Entry j is the segment numbered first + j: what MEDIA-SEQUENCE and startNumber promise. */
  ghost predicate NumbersAgree(segs: seq<Meta>) {
    forall j :: 0 <= j < |segs| ==> segs[j].id == segs[0].id + j
  }

  /** Numbered manifests name the right segments exactly when the ids go up along the list and first and last id
      are as far apart as the list is long. */
  lemma NumbersAgreeIff(segs: seq<Meta>)
    requires segs != []
    ensures NumbersAgree(segs) <==> IdsIncrease(segs) && segs[|segs| - 1].id - segs[0].id == |segs| - 1
  {
    if IdsIncrease(segs) {
      forall a, b | 0 <= a <= b < |segs| ensures segs[b].id - segs[a].id >= b - a {
        AtLeastApart(segs, a, b);
      }
    }
  }

  lemma {:induction false} AtLeastApart(segs: seq<Meta>, a: nat, b: nat)
    requires IdsIncrease(segs) && a <= b < |segs|
    ensures segs[b].id - segs[a].id >= b - a
  {
    if a == b {
    } else {
      AtLeastApart(segs, a, b - 1);
    }
  }

  predicate HasId(segs: seq<Meta>, id: nat) {
    exists m :: m in segs && m.id == id
  }

  /** No id between two listed ones is missing from the list. */
  lemma GaplessNumbers(segs: seq<Meta>)
    requires IdsIncrease(segs) && segs != []
    requires forall i: nat :: segs[0].id <= i <= segs[|segs| - 1].id ==> HasId(segs, i)
    ensures NumbersAgree(segs)
  {
    forall j: nat | j < |segs| ensures segs[j].id == segs[0].id + j {
      GaplessAt(segs, j);
    }
  }

  lemma {:induction false} GaplessAt(segs: seq<Meta>, j: nat)
    requires IdsIncrease(segs) && j < |segs|
    requires forall i: nat :: segs[0].id <= i <= segs[|segs| - 1].id ==> HasId(segs, i)
    ensures segs[j].id == segs[0].id + j
  {
    if j == 0 {
    } else {
      GaplessAt(segs, j - 1);
      var next: nat := segs[j - 1].id + 1;
      assert segs[j - 1] in segs && HasId(segs, next);
      var m :| m in segs && m.id == next;
      var k :| 0 <= k < |segs| && segs[k] == m;
      assert segs[j - 1].id < segs[j].id;
      assert k == j;
    }
  }

  // ---- over runs ----

  /** Every record accepted with an id from `lo` to `hi` belongs to the camera. */
  ghost predicate AllOfCamera(r: Run, camera: seq<byte>, lo: nat, hi: nat) {
    forall i: nat :: lo <= i <= hi ==> i < |r.hist| && r.hist[i].meta.camera == camera
  }

  /** The list holds accepted records of the camera, and all of them between its first and its last id. */
  ghost predicate Complete(r: Run, camera: seq<byte>, list: seq<Meta>) {
    && (forall m :: m in list ==> m.id < |r.hist| && m == r.hist[m.id].meta && m.camera == camera)
    && (list != [] ==>
          forall i: nat :: list[0].id <= i <= list[|list| - 1].id && i < |r.hist| && r.hist[i].meta.camera == camera ==>
            r.hist[i].meta in list)
  }

  lemma CompleteIff(r: Run, camera: seq<byte>, list: seq<Meta>)
    requires Complete(r, camera, list) && IdsIncrease(list) && list != []
    requires forall i: nat :: i < |r.hist| ==> r.hist[i].meta.id == i
    ensures NumbersAgree(list) <==> AllOfCamera(r, camera, list[0].id, list[|list| - 1].id)
  {
    var lo, hi := list[0].id, list[|list| - 1].id;
    if NumbersAgree(list) {
      forall i: nat | lo <= i <= hi ensures i < |r.hist| && r.hist[i].meta.camera == camera {
        assert list[i - lo].id == i && list[i - lo] in list;
      }
    }
    if AllOfCamera(r, camera, lo, hi) {
      forall i: nat | lo <= i <= hi ensures HasId(list, i) {
        assert r.hist[i].meta in list;
      }
      GaplessNumbers(list);
    }
  }

  lemma InSelection(r: Run, m: Meta, p: Meta -> bool)
    requires Inv(r)
    ensures m in Filter(r.sys.index.entries, p) <==> p(m) && Indexed(r, m.id) && m == r.hist[m.id].meta
  {
    assert IndexLive(r);
    hide Inv, KeyLe, Filter, Live;
  }

  /** Any run of a fresh store, in whatever order and from whatever cameras segments arrive: the camera's list is
      numbered correctly exactly when its ids go up and every record accepted between its first and its last id
      belongs to the camera. */
  lemma CameraNumbersIff(n: nat, capacity: nat, now: Instant, ops: seq<Op>, camera: seq<byte>)
    requires 0 < n < U64
    ensures var r := RunAll(Fresh(n, capacity, now), ops);
            var list := ForCamera(r.sys.index, camera);
            list != [] ==>
              (NumbersAgree(list) <==>
               IdsIncrease(list) && AllOfCamera(r, camera, list[0].id, list[|list| - 1].id))
  {
    hide Fresh, RunAll, ForCamera, Inv, GensOrdered, LiveInPass, AllPairs, AllOfCamera;
    FreshRunFacts(n, capacity, now, ops);
    var r := RunAll(Fresh(n, capacity, now), ops);
    var list := ForCamera(r.sys.index, camera);
    if list != [] {
      NumbersAgreeIff(list);
      if IdsIncrease(list) {
        HistoryIds(r);
        ListComplete(r, camera);
        CompleteIff(r, camera, list);
      }
    }
  }

  lemma ListComplete(r: Run, camera: seq<byte>)
    requires Inv(r) && SuffixIndexed(r)
    ensures Complete(r, camera, ForCamera(r.sys.index, camera))
  {
    hide Inv, Filter, SuffixIndexed;
    var list, p := ForCamera(r.sys.index, camera), (m: Meta) => m.camera == camera;
    forall m ensures m in list <==> m.camera == camera && Indexed(r, m.id) && m == r.hist[m.id].meta {
      InSelection(r, m, p);
    }
    HistoryIds(r);
    hide ForCamera;
    if list != [] {
      forall i: nat | list[0].id <= i <= list[|list| - 1].id && i < |r.hist| && r.hist[i].meta.camera == camera
        ensures r.hist[i].meta in list
      {
        assert list[0] in list;
        SuffixAt(r, list[0].id, i);
      }
    }
  }

  lemma SuffixAt(r: Run, i: nat, k: nat)
    requires SuffixIndexed(r) && i <= k < |r.hist| && Indexed(r, i)
    ensures Indexed(r, k)
  {
  }

  /** When the camera's segments arrive in start order: the live window is numbered correctly exactly when every
      record accepted between its first and its last id belongs to the camera. */
  lemma WindowNumbersIff(n: nat, capacity: nat, now: Instant, ops: seq<Op>, camera: seq<byte>)
    requires 0 < n < U64 && ArriveByStart(ops, camera)
    ensures var r := RunAll(Fresh(n, capacity, now), ops);
            var w := Window(ForCamera(r.sys.index, camera));
            w != [] ==> (NumbersAgree(w) <==> AllOfCamera(r, camera, w[0].id, w[|w| - 1].id))
  {
    hide Fresh, RunAll, ForCamera, Inv, GensOrdered, LiveInPass, AllPairs, AllOfCamera, ArriveByStart, StartsOrdered,
      ArriveByEnd, ArriveApart, EndsOrdered, NeverOverlap, Requested, SuffixIndexed, Window;
    FreshRunFacts(n, capacity, now, ops);
    HistoryFollowsRequests(Fresh(n, capacity, now), ops, camera);
    var r := RunAll(Fresh(n, capacity, now), ops);
    CameraList(r, camera);
    ListComplete(r, camera);
    HistoryIds(r);
    var list := ForCamera(r.sys.index, camera);
    if Window(list) != [] {
      WindowComplete(r, camera, list);
      CompleteIff(r, camera, Window(list));
    }
  }

  lemma WindowComplete(r: Run, camera: seq<byte>, list: seq<Meta>)
    requires Complete(r, camera, list) && IdsIncrease(list)
    requires forall i: nat :: i < |r.hist| ==> r.hist[i].meta.id == i
    ensures IdsIncrease(Window(list)) && Complete(r, camera, Window(list))
  {
    hide Window, IdsIncrease;
    WindowIncreases(list);
    if list != [] {
      WindowIsNewest(list);
      var w := Window(list);
      assert w[0] in w && w[|w| - 1] in w;
      IdsBounds(list, w[0]);
      IdsBounds(list, w[|w| - 1]);
      forall i: nat | w[0].id <= i <= w[|w| - 1].id && i < |r.hist| && r.hist[i].meta.camera == camera
        ensures r.hist[i].meta in w
      {
        assert r.hist[i].meta in list;
      }
    }
  }

  lemma IdsBounds(list: seq<Meta>, m: Meta)
    requires IdsIncrease(list) && m in list
    ensures list[0].id <= m.id <= list[|list| - 1].id
  {
  }

  /** ... and, when they arrive in end order as well, the same for any time range. */
  lemma RangeNumbersIff(n: nat, capacity: nat, now: Instant, ops: seq<Op>, camera: seq<byte>,
                        from: Instant, to: Instant)
    requires 0 < n < U64 && ArriveByStart(ops, camera) && ArriveByEnd(ops, camera)
    ensures var r := RunAll(Fresh(n, capacity, now), ops);
            var segs := InRange(r.sys.index, camera, from, to);
            segs != [] ==> (NumbersAgree(segs) <==> AllOfCamera(r, camera, segs[0].id, segs[|segs| - 1].id))
  {
    hide Fresh, RunAll, InRange, Inv, GensOrdered, LiveInPass, AllPairs, AllOfCamera, ArriveByStart, StartsOrdered,
      ArriveByEnd, ArriveApart, EndsOrdered, NeverOverlap, Requested, SuffixIndexed;
    FreshRunFacts(n, capacity, now, ops);
    HistoryFollowsRequests(Fresh(n, capacity, now), ops, camera);
    var r := RunAll(Fresh(n, capacity, now), ops);
    HistoryIds(r);
    RangeIncreases(r, camera, from, to);
    RangeComplete(r, camera, from, to);
    if InRange(r.sys.index, camera, from, to) != [] {
      CompleteIff(r, camera, InRange(r.sys.index, camera, from, to));
    }
  }

  lemma RangeIncreases(r: Run, camera: seq<byte>, from: Instant, to: Instant)
    requires Inv(r) && AllPairs(r.sys.index.entries, DifferentIds) && StartsOrdered(r.hist, camera)
    ensures IdsIncrease(InRange(r.sys.index, camera, from, to))
  {
    hide Inv, Filter, IdsIncrease, StartsOrdered;
    SelectionIncreases(r, camera, (m: Meta) => m.camera == camera && m.start < to && m.end > from);
  }

  /** Overlap is inherited by what lies between two overlapping segments. */
  lemma RangeComplete(r: Run, camera: seq<byte>, from: Instant, to: Instant)
    requires Inv(r) && SuffixIndexed(r) && StartsOrdered(r.hist, camera) && EndsOrdered(r.hist, camera)
    ensures Complete(r, camera, InRange(r.sys.index, camera, from, to))
  {
    hide Inv, Filter, SuffixIndexed;
    var list := InRange(r.sys.index, camera, from, to);
    var p := (m: Meta) => m.camera == camera && m.start < to && m.end > from;
    forall m ensures m in list <==> p(m) && Indexed(r, m.id) && m == r.hist[m.id].meta {
      InSelection(r, m, p);
    }
    HistoryIds(r);
    hide InRange;
    if list != [] {
      var a, b := list[0], list[|list| - 1];
      assert a in list && b in list;
      forall i: nat | a.id <= i <= b.id && i < |r.hist| && r.hist[i].meta.camera == camera
        ensures r.hist[i].meta in list
      {
        SuffixAt(r, a.id, i);
        var m := r.hist[i].meta;
        assert m.start <= b.start && a.end <= m.end;
      }
    }
  }

  predicate OnlyCamera(ops: seq<Op>, camera: seq<byte>) {
    forall i :: 0 <= i < |ops| ==> ops[i].req.camera == camera
  }

  lemma OnlyItsRecords(r: Run, ops: seq<Op>, camera: seq<byte>, list: seq<Meta>)
    requires OnlyCamera(ops, camera) && forall i :: 0 <= i < |r.hist| ==> Requested(r.hist[i], ops)
    requires list != [] && list[|list| - 1].id < |r.hist|
    ensures AllOfCamera(r, camera, list[0].id, list[|list| - 1].id)
  {
    forall i: nat | i < |r.hist| ensures r.hist[i].meta.camera == camera {
      assert Requested(r.hist[i], ops);
      var k :| 0 <= k < |ops| && FromRequest(r.hist[i], ops[k].req);
    }
  }

  /** So with a single camera whose segments have non-decreasing start and end times, the live window and any time
      range list consecutive ids: entry j is segment MEDIA-SEQUENCE + j in HLS and startNumber + j in DASH. */
  lemma OneCameraNumbers(n: nat, capacity: nat, now: Instant, ops: seq<Op>, camera: seq<byte>,
                         from: Instant, to: Instant)
    requires 0 < n < U64 && OnlyCamera(ops, camera) && ArriveByStart(ops, camera) && ArriveByEnd(ops, camera)
    ensures var ix := RunAll(Fresh(n, capacity, now), ops).sys.index;
            NumbersAgree(Window(ForCamera(ix, camera))) && NumbersAgree(InRange(ix, camera, from, to))
  {
    hide Fresh, RunAll, ForCamera, InRange, Inv, GensOrdered, LiveInPass, AllPairs, AllOfCamera, ArriveByStart,
      StartsOrdered, ArriveByEnd, ArriveApart, EndsOrdered, NeverOverlap, Requested, SuffixIndexed, OnlyCamera, Window;
    FreshRunFacts(n, capacity, now, ops);
    HistoryFollowsRequests(Fresh(n, capacity, now), ops, camera);
    WindowNumbersIff(n, capacity, now, ops, camera);
    RangeNumbersIff(n, capacity, now, ops, camera, from, to);
    var r := RunAll(Fresh(n, capacity, now), ops);
    ListComplete(r, camera);
    RangeComplete(r, camera, from, to);
    var w, segs := Window(ForCamera(r.sys.index, camera)), InRange(r.sys.index, camera, from, to);
    if w != [] {
      WindowMembers(ForCamera(r.sys.index, camera));
      assert w[|w| - 1] in w;
      OnlyItsRecords(r, ops, camera, w);
    }
    if segs != [] {
      assert segs[|segs| - 1] in segs;
      OnlyItsRecords(r, ops, camera, segs);
    }
  }

  lemma WindowMembers(list: seq<Meta>)
    ensures forall m :: m in Window(list) ==> m in list
  {
  }

  /** Three requests served without failures into a fresh store whose first file they fit. */
  ghost predicate ThreeFit(capacity: nat, ops: seq<Op>) {
    && |ops| == 3 && AllSucceed(capacity, ops)
    && RecordSize(ops[0].req) + RecordSize(ops[1].req) + RecordSize(ops[2].req) <= capacity
  }

  lemma ThreeAccepted(n: nat, capacity: nat, now: Instant, ops: seq<Op>)
    requires 0 < n < U64 && ThreeFit(capacity, ops)
    ensures var r := RunAll(Fresh(n, capacity, now), ops);
            && |r.hist| == 3 && forall i: nat :: i < 3 ==> Indexed(r, i) && FromRequest(r.hist[i], ops[i].req)
  {
    hide Fresh, RunStep, RunAll, Valid, Indexed;
    var r0 := Fresh(n, capacity, now);
    FreshShape(n, capacity, now);
    var r1 := RunStep(r0, ops[0]);
    StepStays(r0, ops[0]);
    StepAccepts(r0, ops[0]);
    var r2 := RunStep(r1, ops[1]);
    StepStays(r1, ops[1]);
    StepAccepts(r1, ops[1]);
    StepStays(r2, ops[2]);
    StepAccepts(r2, ops[2]);
    RunThree(r0, ops);
    FittingRunsHoldLastPasses(n, capacity, now, ops);
    var r := RunStep(r2, ops[2]);
    assert r.hist[0] == r2.hist[0] && r.hist[1] == r2.hist[1] && r2.hist[0] == r1.hist[0];
    forall i: nat | i < 3 ensures Indexed(r, i) {
      assert Indexed(r, i) <==> r.hist[i].gen + |r.turns| > r.rotations;
    }
  }

  /** With two cameras it goes wrong, as soon as one's record comes between two of the other's: ids are shared
      between cameras, the numbers of a manifest are not. */
  lemma TwoCamerasDisagree(n: nat, capacity: nat, now: Instant, ops: seq<Op>, camera: seq<byte>)
    requires 0 < n < U64 && ThreeFit(capacity, ops) && ArriveByStart(ops, camera)
    requires ops[0].req.camera == camera == ops[2].req.camera && ops[1].req.camera != camera
    ensures var w := Window(ForCamera(RunAll(Fresh(n, capacity, now), ops).sys.index, camera));
            |w| == 2 && !NumbersAgree(w)
  {
    hide Fresh, RunAll, ForCamera, Inv, LiveInPass, GensOrdered, Accounted, AllPairs, ArriveByStart, StartsOrdered,
      SuffixIndexed, Requested, Indexed, ThreeFit;
    ThreeAccepted(n, capacity, now, ops);
    FreshRunFacts(n, capacity, now, ops);
    HistoryFollowsRequests(Fresh(n, capacity, now), ops, camera);
    var r := RunAll(Fresh(n, capacity, now), ops);
    HistoryIds(r);
    CameraList(r, camera);
    TwoListed(r, camera, ForCamera(r.sys.index, camera));
  }

  lemma TwoListed(r: Run, camera: seq<byte>, list: seq<Meta>)
    requires ListsCamera(r, camera, list) && |r.hist| == 3
    requires forall i: nat :: i < 3 ==> Indexed(r, i) && r.hist[i].meta.id == i
    requires r.hist[0].meta.camera == camera == r.hist[2].meta.camera && r.hist[1].meta.camera != camera
    ensures |Window(list)| == 2 && !NumbersAgree(Window(list))
  {
    var a, c := r.hist[0].meta, r.hist[2].meta;
    assert a in list && c in list;
    hide Indexed;
    var i :| 0 <= i < |list| && list[i] == a;
    var k :| 0 <= k < |list| && list[k] == c;
    forall x | 0 <= x < |list| ensures list[x].id == list[i].id || list[x].id == list[k].id {
      assert list[x] in list && Indexed(r, list[x].id);
    }
    assert i == 0 && list[1].id == list[k].id;
    assert k == 1 && list[|list| - 1].id == list[k].id;
  }
}
