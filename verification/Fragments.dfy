/** The fragment state machine of one camera connection: the muxer asks where to put the next fragment, which
    closes the one before it; stopping the stream closes the last one. */
module Fragments {
  import opened Bytes
  import opened RecordFormat
  import opened WriterModel
  import opened IndexModel
  import opened RingHistory
  import opened LiveWindow

  /** A closed fragment as offered to the segment channel; `sent` says whether the channel took it. Temporary
      files are known by their fragment number. */
  datatype Offer = Offer(path: nat, start: Instant, end: Instant, sent: bool)

  /** `offered` and `removed` record, in order, what left the state machine. */
  datatype Stream = Stream(current: Option<nat>, start: Instant, discardNext: bool,
                           offered: seq<Offer>, removed: seq<nat>)

  /** The muxer's request for a new file, with the time and the channel's answer to the segment it closes. */
  datatype Call = Call(path: nat, now: Instant, accepted: bool)

  class FragmentState {
    var currentPath: Option<nat>
    var currentStart: Instant
    var discardNext: bool
    var offered: seq<Offer>
    var removed: seq<nat>

    function State(): Stream
      reads this
    {
      Stream(currentPath, currentStart, discardNext, offered, removed)
    }

    constructor (now: Instant)
      ensures State() == Connected(now)
    {
      currentPath, currentStart, discardNext, offered, removed := None, now, true, [], [];
    }

    method FormatLocation(call: Call) returns (path: nat)
      modifies this
      ensures path == call.path && State() == Formatted(old(State()), call)
    {
      if currentPath.Some? {
        if discardNext {
          removed := removed + [currentPath.value];
          discardNext := false;
        } else {
          offered := offered + [Offer(currentPath.value, currentStart, call.now, call.accepted)];
        }
      }
      currentPath, currentStart := Some(call.path), call.now;
      path := call.path;
    }

    method Stop(now: Instant, accepted: bool)
      modifies this
      ensures State() == Stopped(old(State()), now, accepted)
    {
      var last := currentPath;
      currentPath := None;
      if last.Some? {
        if discardNext {
          removed := removed + [last.value];
        } else {
          offered := offered + [Offer(last.value, currentStart, now, accepted)];
        }
      }
    }
  }

  function Connected(now: Instant): Stream {
    Stream(None, now, true, [], [])
  }

  function Formatted(s: Stream, call: Call): Stream {
    var closed := if s.current.None? then s else Close(s, call.now, call.accepted).(discardNext := false);
    closed.(current := Some(call.path), start := call.now)
  }

  function Stopped(s: Stream, now: Instant, accepted: bool): Stream {
    if s.current.None? then s else Close(s, now, accepted).(current := None)
  }

  /** The open fragment ends: thrown away if it is the first of the connection, else offered. */
  function Close(s: Stream, now: Instant, accepted: bool): Stream
    requires s.current.Some?
  {
    if s.discardNext then s.(removed := s.removed + [s.current.value])
    else s.(offered := s.offered + [Offer(s.current.value, s.start, now, accepted)])
  }

  function FormatAll(s: Stream, calls: seq<Call>): Stream {
    if calls == [] then s else Formatted(FormatAll(s, calls[..|calls| - 1]), calls[|calls| - 1])
  }

  /** Stopping `stops` times: a stream is stopped explicitly and once more when dropped. */
  function StopAll(s: Stream, stops: seq<(Instant, bool)>): Stream
    decreases |stops|
  {
    if stops == [] then s else StopAll(Stopped(s, stops[0].0, stops[0].1), stops[1..])
  }

  /** A whole connection. */
  function Connection(now: Instant, calls: seq<Call>, stops: seq<(Instant, bool)>): Stream {
    StopAll(FormatAll(Connected(now), calls), stops)
  }

  /** The moments at which one fragment ends and the next begins, with the channel's answers. */
  function Cuts(calls: seq<Call>, stops: seq<(Instant, bool)>): seq<(Instant, bool)> {
    seq(|calls|, i requires 0 <= i < |calls| => (calls[i].now, calls[i].accepted))
    + (if stops == [] then [] else [stops[0]])
  }

  /** Fragment k runs from cut k to cut k + 1. */
  function Fragment(calls: seq<Call>, cuts: seq<(Instant, bool)>, k: nat): Offer
    requires k < |calls| && k + 1 < |cuts|
  {
    Offer(calls[k].path, cuts[k].0, cuts[k + 1].0, cuts[k + 1].1)
  }

  /** The first `m` fragments of a connection are closed: the first was thrown away, the others offered once
      each, in order. */
  ghost predicate ClosedInOrder(s: Stream, calls: seq<Call>, cuts: seq<(Instant, bool)>, m: nat)
    requires m <= |calls| && (m > 0 ==> m < |cuts|)
  {
    && s.removed == (if m == 0 then [] else [calls[0].path])
    && |s.offered| == (if m == 0 then 0 else m - 1)
    && forall k :: 0 <= k < |s.offered| ==> s.offered[k] == Fragment(calls, cuts, k + 1)
  }

  /** Where the chain stands once the muxer has asked for the last file of `calls`. */
  ghost predicate Chained(s: Stream, calls: seq<Call>, now: Instant) {
    if calls == [] then s == Connected(now)
    else
      && s.current == Some(calls[|calls| - 1].path) && s.start == calls[|calls| - 1].now
      && s.discardNext == (|calls| == 1)
      && ClosedInOrder(s, calls, Cuts(calls, []), |calls| - 1)
  }

  lemma FormatStep(s: Stream, calls: seq<Call>, now: Instant)
    requires calls != [] && Chained(s, calls[..|calls| - 1], now)
    ensures Chained(Formatted(s, calls[|calls| - 1]), calls, now)
  {
    var n := |calls| - 1;
    if n > 1 {
      var cuts, before := Cuts(calls, []), Cuts(calls[..n], []);
      assert forall k :: 0 <= k < n ==> cuts[k] == before[k];
      assert Offer(s.current.value, s.start, calls[n].now, calls[n].accepted) == Fragment(calls, cuts, n - 1);
      assert forall k: nat :: k + 1 < n ==> Fragment(calls[..n], before, k) == Fragment(calls, cuts, k);
    }
  }

  lemma {:induction false} FormatChain(now: Instant, calls: seq<Call>)
    ensures Chained(FormatAll(Connected(now), calls), calls, now)
  {
    if calls == [] {
    } else {
      FormatChain(now, calls[..|calls| - 1]);
      FormatStep(FormatAll(Connected(now), calls[..|calls| - 1]), calls, now);
    }
  }

  lemma {:induction false} StoppedOnce(s: Stream, stops: seq<(Instant, bool)>)
    requires s.current.None?
    ensures StopAll(s, stops) == s
    decreases |stops|
  {
    if stops == [] {
    } else {
      StoppedOnce(s, stops[1..]);
    }
  }

  /** Any callbacks followed by any number of stops: exactly the first fragment is discarded, every later one
      that ended is offered exactly once and in order, each starting where the one before it ended; stops
      beyond the first change nothing. */
  lemma FragmentChain(now: Instant, calls: seq<Call>, stops: seq<(Instant, bool)>)
    ensures var s := Connection(now, calls, stops);
            var m := if calls == [] || stops != [] then |calls| else |calls| - 1;
            && ClosedInOrder(s, calls, Cuts(calls, stops), m)
            && (s.current.Some? <==> calls != [] && stops == [])
            && (forall k :: 0 <= k < |s.offered| - 1 ==> s.offered[k].end == s.offered[k + 1].start)
  {
    FormatChain(now, calls);
    var s := FormatAll(Connected(now), calls);
    if stops != [] {
      StoppedOnce(Stopped(s, stops[0].0, stops[0].1), stops[1..]);
      assert forall k :: 0 <= k < |calls| ==> Cuts(calls, stops)[k] == Cuts(calls, [])[k];
    }
  }

  // ---- what the writer receives ----

  predicate ClockMovesOn(cuts: seq<(Instant, bool)>) {
    forall i, k :: 0 <= i <= k < |cuts| ==> cuts[i].0 <= cuts[k].0
  }

  /** Segments in order, none overlapping another, ready to be queued for the writer. */
  predicate InOrder(offers: seq<Offer>) {
    && (forall k :: 0 <= k < |offers| ==> offers[k].start <= offers[k].end)
    && (forall i, k :: 0 <= i < k < |offers| ==> offers[i].end <= offers[k].start)
  }

  lemma ConnectionInOrder(now: Instant, calls: seq<Call>, stops: seq<(Instant, bool)>)
    requires ClockMovesOn(Cuts(calls, stops))
    ensures InOrder(Connection(now, calls, stops).offered)
  {
    FragmentChain(now, calls, stops);
    var cuts := Cuts(calls, stops);
    var offered := Connection(now, calls, stops).offered;
    assert offered != [] ==> |offered| + 2 <= |cuts| && |offered| + 1 <= |calls|;
    assert forall k :: 0 <= k < |offered| ==> offered[k] == Fragment(calls, cuts, k + 1);
    hide Connection, Cuts, ClosedInOrder;
    forall k | 0 <= k < |offered|
      ensures offered[k].start == cuts[k + 1].0 && offered[k].end == cuts[k + 2].0
      ensures offered[k].start <= offered[k].end
    {
      assert offered[k] == Fragment(calls, cuts, k + 1);
      assert cuts[k + 1].0 <= cuts[k + 2].0;
    }
    forall i, k | 0 <= i < k < |offered| ensures offered[i].end <= offered[k].start {
      assert cuts[i + 2].0 <= cuts[k + 1].0;
    }
  }

  /** The camera's requests are some of the connection's segments, in order: the channel, a file that cannot be
      read or a closed writer may lose any of the others. `pick[i]` is the segment request i carries. */
  predicate Forwards(ops: seq<Op>, camera: seq<byte>, offers: seq<Offer>, pick: seq<nat>) {
    && |pick| == |ops|
    && (forall i :: 0 <= i < |ops| && ops[i].req.camera == camera ==>
          pick[i] < |offers| && ops[i].req.start == offers[pick[i]].start && ops[i].req.end == offers[pick[i]].end)
    && (forall i, k :: 0 <= i < k < |ops| && ops[i].req.camera == camera == ops[k].req.camera ==> pick[i] < pick[k])
  }

  /** Whatever was lost on the way, what one connection delivers reaches the writer in start order and in end
      order, and never overlaps. */
  lemma ConnectionArrives(now: Instant, calls: seq<Call>, stops: seq<(Instant, bool)>,
                          ops: seq<Op>, camera: seq<byte>, pick: seq<nat>)
    requires ClockMovesOn(Cuts(calls, stops)) && Forwards(ops, camera, Connection(now, calls, stops).offered, pick)
    ensures ArriveByStart(ops, camera) && ArriveByEnd(ops, camera) && ArriveApart(ops, camera)
  {
    ConnectionInOrder(now, calls, stops);
    var offers := Connection(now, calls, stops).offered;
    hide Connection, Cuts;
    forall i, k | 0 <= i < k < |ops| && ops[i].req.camera == camera == ops[k].req.camera
      ensures ops[i].req.start <= ops[i].req.end <= ops[k].req.start <= ops[k].req.end
    {
      assert pick[i] < pick[k];
      assert offers[pick[i]].end <= offers[pick[k]].start;
    }
  }

  /** So the camera's list, ordered by start, is in id order and without overlaps, whatever was evicted. */
  lemma ConnectionListed(now: Instant, calls: seq<Call>, stops: seq<(Instant, bool)>,
                         n: nat, capacity: nat, ops: seq<Op>, camera: seq<byte>, pick: seq<nat>)
    requires 0 < n < U64
    requires ClockMovesOn(Cuts(calls, stops)) && Forwards(ops, camera, Connection(now, calls, stops).offered, pick)
    ensures var list := ForCamera(RunAll(Fresh(n, capacity, now), ops).sys.index, camera);
            IdsIncrease(list) && forall a, b :: 0 <= a < b < |list| ==> list[a].end <= list[b].start
  {
    ConnectionArrives(now, calls, stops, ops, camera, pick);
    FreshRunFacts(n, capacity, now, ops);
    HistoryFollowsRequests(Fresh(n, capacity, now), ops, camera);
    hide Fresh, RunAll, Connection, Cuts, Forwards, ClockMovesOn, Inv, ForCamera, ArriveByStart, ArriveByEnd,
      ArriveApart;
    var r := RunAll(Fresh(n, capacity, now), ops);
    CameraList(r, camera);
    hide StartsOrdered, EndsOrdered, GensOrdered, LiveInPass, SuffixIndexed;
    var list := ForCamera(r.sys.index, camera);
    forall a, b | 0 <= a < b < |list| ensures list[a].end <= list[b].start {
      assert list[a] in list && list[b] in list;
      assert list[a].id < list[b].id;
    }
  }
}
