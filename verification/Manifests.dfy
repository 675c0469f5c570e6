/** HLS playlists and DASH manifests as lists of lines, and what a player makes of them. Times and durations are
    in milliseconds. */
module Manifests {
  import opened Bytes
  import opened RecordFormat
  import opened Sorting
  import opened IndexModel
  import opened SegmentIndexClass
  import opened WriterModel
  import opened RingHistory
  import opened LiveWindow
  import opened Numbering

  const DISCONTINUITY_MS: int := 1500
  const START_OFFSET_MS: int := 100

  datatype Line = Discontinuity | Media(uri: nat, date: int, durationMs: nat)
  datatype Playlist = Playlist(target: nat, mediaSequence: nat, startOffset: Option<int>, lines: seq<Line>, ended: bool)

  /** Milliseconds since the epoch, rounded down. */
  function Stamp(t: Instant): int {
    t / 1_000_000
  }

  /** The duration of a segment, or the configured one when its timestamps say nothing. */
  function DurationMs(m: Meta, fallbackSecs: nat): nat {
    var d := Millis(m.end - m.start);
    if d > 0 then d else fallbackSecs * 1000
  }

  predicate Gap(before: Meta, m: Meta) {
    Millis(m.start - before.end) > DISCONTINUITY_MS
  }

  // ---- writing the lines ----

  function MediaOf(m: Meta, secs: nat): Line {
    Media(m.id, Stamp(m.start), DurationMs(m, secs))
  }

  function LinesOf(segs: seq<Meta>, secs: nat): seq<Line> {
    if segs == [] then []
    else
      var n := |segs| - 1;
      LinesOf(segs[..n], secs)
      + (if n > 0 && Gap(segs[n - 1], segs[n]) then [Discontinuity] else [])
      + [MediaOf(segs[n], secs)]
  }

  function LivePlaylist(ix: Index, camera: seq<byte>, secs: nat): Playlist {
    var w := Window(ForCamera(ix, camera));
    Playlist(secs, if w == [] then 0 else w[0].id, None, LinesOf(w, secs), false)
  }

  lemma NoLines(secs: nat)
    ensures LinesOf([], secs) == []
  {
  }

  method WriteLines(segs: seq<Meta>, secs: nat) returns (lines: seq<Line>)
    ensures lines == LinesOf(segs, secs)
  {
    lines := [];
    var prevEnd: Option<Instant> := None;
    for i := 0 to |segs|
      invariant lines == LinesOf(segs[..i], secs)
      invariant prevEnd == if i == 0 then None else Some(segs[i - 1].end)
    {
      assert segs[..i + 1][..i] == segs[..i];
      if prevEnd.Some? && Millis(segs[i].start - prevEnd.value) > DISCONTINUITY_MS {
        lines := lines + [Discontinuity];
      }
      prevEnd := Some(segs[i].end);
      lines := lines + [Media(segs[i].id, Stamp(segs[i].start), DurationMs(segs[i], secs))];
    }
    assert segs[..|segs|] == segs;
  }

  method MaxId(segs: seq<Meta>) returns (maxId: nat)
    requires segs != []
    ensures (forall m :: m in segs ==> m.id <= maxId) && exists m :: m in segs && m.id == maxId
  {
    maxId := segs[0].id;
    for i := 0 to |segs|
      invariant forall k :: 0 <= k < i ==> segs[k].id <= maxId
      invariant exists m :: m in segs && m.id == maxId
    {
      maxId := if segs[i].id > maxId then segs[i].id else maxId;
    }
  }

  /** Nothing when the caller has to wait for segment `blockMsn`, else the live playlist. */
  method GenerateLivePlaylist(ix: SegmentIndex, camera: seq<byte>, secs: nat, blockMsn: Option<nat>)
    returns (playlist: Option<Playlist>)
    ensures ListsAll(ix.entries, camera, ForCamera(ix.State(), camera))
    ensures playlist == if blockMsn.Some? && Blocks(ForCamera(ix.State(), camera), blockMsn.value) then None
                        else Some(LivePlaylist(ix.State(), camera, secs))
  {
    hide ListsAll, LinesOf, Stamp, DurationMs, KeyLe;
    ForCameraListsAll(ix.State(), camera);
    var all := Filter(ix.entries, (m: Meta) => m.camera == camera);
    assert all == ForCamera(ix.State(), camera);
    NoLines(secs);
    hide Filter, ForCamera;
    if all == [] {
      return Some(Playlist(secs, 0, None, [], false));
    }
    if blockMsn.Some? {
      var maxId := MaxId(all);
      if blockMsn.value > maxId {
        return None;
      }
    }
    var window := if |all| < LIVE_WINDOW then all else all[|all| - LIVE_WINDOW..];
    var lines := WriteLines(window, secs);
    playlist := Some(Playlist(secs, window[0].id, None, lines, false));
  }

  /** The least whole number of seconds that no duration exceeds. */
  predicate IsTarget(target: nat, segs: seq<Meta>, secs: nat) {
    && (forall m :: m in segs ==> DurationMs(m, secs) <= target * 1000)
    && (target > 0 ==> exists m :: m in segs && DurationMs(m, secs) > (target - 1) * 1000)
  }

  /** That is, exactly the whole numbers of seconds from the target on cover every entry. */
  lemma TargetIsLeast(target: nat, segs: seq<Meta>, secs: nat, t: nat)
    requires IsTarget(target, segs, secs)
    ensures t >= target <==> forall m :: m in segs ==> DurationMs(m, secs) <= t * 1000
  {
    hide DurationMs;
  }

  /** Where playback starts: told exactly when `from` lies more than 100 whole milliseconds into the first segment,
      and then the last whole millisecond at or before `from`. */
  predicate StartsAt(offset: Option<int>, from: Instant, first: Meta) {
    && (offset.Some? <==> from - first.start >= 101_000_000)
    && (offset.Some? ==>
          first.start + offset.value * 1_000_000 <= from < first.start + (offset.value + 1) * 1_000_000)
  }

  function StartOffset(from: Instant, first: Meta): Option<int> {
    var diff := Millis(from - first.start);
    if diff > START_OFFSET_MS then Some(diff) else None
  }

  method GenerateVodPlaylist(ix: SegmentIndex, camera: seq<byte>, from: Instant, to: Instant, secs: nat)
    returns (playlist: Option<Playlist>)
    ensures var segs := InRange(ix.State(), camera, from, to);
            && ListsRange(ix.entries, camera, from, to, segs)
            && (playlist.None? <==> segs == [])
            && (playlist.Some? ==>
                  && IsTarget(playlist.value.target, segs, secs)
                  && StartsAt(playlist.value.startOffset, from, segs[0])
                  && playlist.value == Playlist(playlist.value.target, segs[0].id, playlist.value.startOffset,
                                                [Discontinuity] + LinesOf(segs, secs), true))
  {
    hide ListsRange, LinesOf, KeyLe, DurationMs;
    InRangeListsRange(ix.State(), camera, from, to);
    var segs := Filter(ix.entries, (m: Meta) => m.camera == camera && m.start < to && m.end > from);
    assert segs == InRange(ix.State(), camera, from, to);
    hide Filter, InRange;
    if segs == [] {
      return None;
    }
    var longest := 0;
    for i := 0 to |segs|
      invariant forall k :: 0 <= k < i ==> DurationMs(segs[k], secs) <= longest
      invariant longest == 0 || exists k :: 0 <= k < i && DurationMs(segs[k], secs) == longest
    {
      var d := DurationMs(segs[i], secs);
      longest := if d > longest then d else longest;
    }
    var target := (longest + 999) / 1000;
    var lines := WriteLines(segs, secs);
    playlist := Some(Playlist(target, segs[0].id, StartOffset(from, segs[0]), [Discontinuity] + lines, true));
  }

  // ---- reading the lines ----

  /** What a player knows of one entry. */
  datatype Entry = Entry(number: nat, uri: nat, date: int, durationMs: nat, discontinuity: bool)

  /** A player reads the lines in order: entries are numbered from the media sequence number, and a
      discontinuity applies to the next entry. */
  function Play(lines: seq<Line>, number: nat, discontinuity: bool): seq<Entry> {
    if lines == [] then []
    else match lines[0]
      case Discontinuity => Play(lines[1..], number, true)
      case Media(uri, date, ms) => [Entry(number, uri, date, ms, discontinuity)] + Play(lines[1..], number + 1, false)
  }

  /** The entry segment j of a list is meant to become. */
  function Shown(segs: seq<Meta>, secs: nat, j: nat, first: nat, cut: bool): Entry
    requires j < |segs|
  {
    Entry(first + j, segs[j].id, Stamp(segs[j].start), DurationMs(segs[j], secs),
          if j == 0 then cut else Gap(segs[j - 1], segs[j]))
  }

  /** An entry in plain numbers: counted from the first, with the segment's id as address, the whole millisecond it
      starts in, its whole milliseconds or, if it has none, the configured duration, and marked discontinuous when
      1501 milliseconds or more passed before it. */
  ghost predicate Announces(e: Entry, segs: seq<Meta>, secs: nat, j: nat, first: nat, cut: bool)
    requires j < |segs|
  {
    var m := segs[j];
    && e.number == first + j && e.uri == m.id
    && e.date * 1_000_000 <= m.start < (e.date + 1) * 1_000_000
    && Lasts(m, secs, e.durationMs)
    && (e.discontinuity <==> if j == 0 then cut else m.start - segs[j - 1].end >= 1_501_000_000)
  }

  predicate Lasts(m: Meta, secs: nat, ms: nat) {
    if m.end - m.start >= 1_000_000 then ms * 1_000_000 <= m.end - m.start < (ms + 1) * 1_000_000
    else ms == secs * 1000
  }

  lemma ShownAnnounces(segs: seq<Meta>, secs: nat, first: nat, cut: bool)
    ensures forall j :: 0 <= j < |segs| ==> Announces(Shown(segs, secs, j, first, cut), segs, secs, j, first, cut)
  {
  }

  lemma {:induction false} PlayMore(lines: seq<Line>, number: nat, cut: bool, gap: bool, m: Line)
    requires m.Media?
    ensures var read := Play(lines, number, cut);
            lines != [] && lines[|lines| - 1].Media? ==>
              Play(lines + (if gap then [Discontinuity] else []) + [m], number, cut)
              == read + [Entry(number + |read|, m.uri, m.date, m.durationMs, gap)]
  {
    var more := lines + (if gap then [Discontinuity] else []) + [m];
    if lines != [] && lines[|lines| - 1].Media? {
      assert more[1..] == lines[1..] + (if gap then [Discontinuity] else []) + [m];
      if |lines| == 1 {
        assert [m][1..] == [] && [Discontinuity, m][1..] == [m];
        assert Play([m], number + 1, gap) == [Entry(number + 1, m.uri, m.date, m.durationMs, gap)];
        assert more[1..] == if gap then [Discontinuity, m] else [m];
        assert Play(more[1..], number + 1, false) == Play([m], number + 1, gap);
      } else if lines[0].Media? {
        PlayMore(lines[1..], number + 1, false, gap, m);
      } else {
        PlayMore(lines[1..], number, true, gap, m);
      }
    }
  }

  lemma PlayShort(m: Line, number: nat, cut: bool)
    ensures Play([], number, cut) == []
    ensures m.Media? ==> Play([m], number, cut) == [Entry(number, m.uri, m.date, m.durationMs, cut)]
  {
    assert [m][1..] == [];
  }

  /** Reading back the lines gives every segment once, in order, with its own address, date and duration; an
      entry is marked discontinuous exactly when more than 1.5 s passed since the one before it. */
  lemma {:induction false} LinesReadBack(segs: seq<Meta>, secs: nat, first: nat, cut: bool)
    ensures var read := Play(LinesOf(segs, secs), first, cut);
            && |read| == |segs|
            && (forall j :: 0 <= j < |segs| ==> read[j] == Shown(segs, secs, j, first, cut))
    ensures segs != [] ==> var lines := LinesOf(segs, secs); lines != [] && lines[|lines| - 1].Media?
  {
    hide Gap, DurationMs, Stamp, Play;
    if segs == [] {
      assert LinesOf(segs, secs) == [];
      PlayShort(Discontinuity, first, cut);
    } else if |segs| == 1 {
      assert LinesOf(segs, secs) == [MediaOf(segs[0], secs)];
      PlayShort(MediaOf(segs[0], secs), first, cut);
    } else {
      var n := |segs| - 1;
      LinesReadBack(segs[..n], secs, first, cut);
      var gap := Gap(segs[n - 1], segs[n]);
      PlayMore(LinesOf(segs[..n], secs), first, cut, gap, MediaOf(segs[n], secs));
      assert forall j :: 0 <= j < n ==> Shown(segs[..n], secs, j, first, cut) == Shown(segs, secs, j, first, cut);
    }
  }

  /** In the live playlist entry j is the j-th newest-window segment; the number a player gives it is the
      segment's id for every entry exactly when the window's ids are consecutive. */
  lemma LivePlaylistReads(ix: Index, camera: seq<byte>, secs: nat)
    ensures var w := Window(ForCamera(ix, camera));
            var p := LivePlaylist(ix, camera, secs);
            var read := Play(p.lines, p.mediaSequence, false);
            && |read| == |w| && p.startOffset.None? && !p.ended
            && p.mediaSequence == (if w == [] then 0 else w[0].id)
            && (forall j :: 0 <= j < |w| ==> Announces(read[j], w, secs, j, w[0].id, false))
            && ((forall j :: 0 <= j < |w| ==> read[j].number == read[j].uri) <==> NumbersAgree(w))
  {
    var w := Window(ForCamera(ix, camera));
    LinesReadBack(w, secs, if w == [] then 0 else w[0].id, false);
    ShownAnnounces(w, secs, if w == [] then 0 else w[0].id, false);
    hide LinesOf, Play, ForCamera, Window, Gap, DurationMs;
    if w != [] {
      var read := Play(LinesOf(w, secs), w[0].id, false);
      assert forall j :: 0 <= j < |w| ==> read[j].number == w[0].id + j && read[j].uri == w[j].id;
    }
  }

  /** A recorded range reads back like a live one, only that its first entry is marked discontinuous. */
  lemma VodPlaylistReads(segs: seq<Meta>, secs: nat)
    requires segs != []
    ensures var read := Play([Discontinuity] + LinesOf(segs, secs), segs[0].id, false);
            && |read| == |segs|
            && (forall j :: 0 <= j < |segs| ==> Announces(read[j], segs, secs, j, segs[0].id, true))
            && ((forall j :: 0 <= j < |segs| ==> read[j].number == read[j].uri) <==> NumbersAgree(segs))
  {
    assert ([Discontinuity] + LinesOf(segs, secs))[1..] == LinesOf(segs, secs);
    LinesReadBack(segs, secs, segs[0].id, true);
    ShownAnnounces(segs, secs, segs[0].id, true);
    var read := Play(LinesOf(segs, secs), segs[0].id, true);
    assert forall j :: 0 <= j < |segs| ==> read[j].number == segs[0].id + j && read[j].uri == segs[j].id;
  }

  /** A duration as a player compares it with the target: rounded to the nearest second. */
  function Rounded(durationMs: nat): nat {
    (durationMs + 500) / 1000
  }

  /** The entries of a playlist keep to its target duration (section 4.3.3.1 of RFC 8216). */
  predicate KeepsTarget(target: nat, entries: seq<Entry>) {
    forall j :: 0 <= j < |entries| ==> Rounded(entries[j].durationMs) <= target
  }

  lemma VodKeepsTarget(segs: seq<Meta>, secs: nat, target: nat)
    requires segs != [] && IsTarget(target, segs, secs)
    ensures KeepsTarget(target, Play([Discontinuity] + LinesOf(segs, secs), segs[0].id, false))
  {
    VodPlaylistReads(segs, secs);
    hide LinesOf, Play, DurationMs;
    forall j | 0 <= j < |segs| ensures Rounded(DurationMs(segs[j], secs)) <= target {
      assert segs[j] in segs;
    }
  }

  /** The live playlist announces the configured duration whatever the segments last, so it keeps to it exactly
      when no listed segment is longer by half a second. */
  lemma LiveKeepsTargetIff(ix: Index, camera: seq<byte>, secs: nat)
    ensures var p, w := LivePlaylist(ix, camera, secs), Window(ForCamera(ix, camera));
            KeepsTarget(p.target, Play(p.lines, p.mediaSequence, false))
            <==> forall m :: m in w ==> ShortEnough(m, secs)
  {
    LivePlaylistReads(ix, camera, secs);
    var p, w := LivePlaylist(ix, camera, secs), Window(ForCamera(ix, camera));
    var read := Play(p.lines, p.mediaSequence, false);
    hide LinesOf, Play, ForCamera, Window;
    forall j | 0 <= j < |w| ensures Rounded(read[j].durationMs) <= secs <==> ShortEnough(w[j], secs) {
    }
    hide Announces, ShortEnough, Rounded;
    forall j | 0 <= j < |w| ensures w[j] in w {
    }
    if KeepsTarget(secs, read) {
      forall m | m in w ensures ShortEnough(m, secs) {
        var j :| 0 <= j < |w| && w[j] == m;
        assert Rounded(read[j].durationMs) <= secs;
      }
    }
  }

  /** Less than half a second longer than configured. */
  predicate ShortEnough(m: Meta, secs: nat) {
    m.end - m.start < secs * 1_000_000_000 + 500_000_000
  }

  /** An offset that is told is positive and falls inside the first segment. */
  lemma OffsetInsideFirst(ix: Index, camera: seq<byte>, from: Instant, to: Instant, secs: nat, offset: Option<int>)
    requires InRange(ix, camera, from, to) != [] && StartsAt(offset, from, InRange(ix, camera, from, to)[0])
    ensures offset.Some? ==> 100 < offset.value <= DurationMs(InRange(ix, camera, from, to)[0], secs)
  {
    var first := InRange(ix, camera, from, to)[0];
    assert first in InRange(ix, camera, from, to);
    assert first.end > from;
  }

  // ---- the blocking loop of the live handler ----

  /** The handler polls until the segment is there or its time is up: `views[k]` is the index at poll k, poll
      `late` is the first one after the deadline, and one more read follows it. */
  method HandleHlsLive(views: seq<SegmentIndex>, late: nat, camera: seq<byte>, secs: nat, msn: nat)
    returns (playlist: Playlist, polls: nat)
    requires |views| == late + 2
    ensures polls <= late + 1
    ensures forall k :: 0 <= k < polls ==> Blocks(ForCamera(views[k].State(), camera), msn)
    ensures polls <= late ==> !Blocks(ForCamera(views[polls].State(), camera), msn)
    ensures playlist == LivePlaylist(views[polls].State(), camera, secs)
  {
    polls := 0;
    while true
      invariant polls <= late
      invariant forall k :: 0 <= k < polls ==> Blocks(ForCamera(views[k].State(), camera), msn)
      decreases late - polls
    {
      var answer := GenerateLivePlaylist(views[polls], camera, secs, Some(msn));
      if answer.Some? {
        return answer.value, polls;
      }
      if polls == late {
        var final := GenerateLivePlaylist(views[polls + 1], camera, secs, None);
        return final.value, polls + 1;
      }
      polls := polls + 1;
    }
  }

  // ---- DASH ----

  datatype Span = Span(t: int, d: nat)
  datatype Mpd = Mpd(dynamic: bool, availableFrom: int, total: Option<nat>, startNumber: nat, timeline: seq<Span>)

  function Timeline(segs: seq<Meta>, secs: nat): seq<Span> {
    seq(|segs|, i requires 0 <= i < |segs| => Span(Stamp(segs[i].start), DurationMs(segs[i], secs)))
  }

  /** The timeline in plain numbers. */
  ghost predicate Spans(t: seq<Span>, segs: seq<Meta>, secs: nat) {
    && |t| == |segs|
    && forall j :: 0 <= j < |segs| ==>
         t[j].t * 1_000_000 <= segs[j].start < (t[j].t + 1) * 1_000_000 && Lasts(segs[j], secs, t[j].d)
  }

  function TotalMs(spans: seq<Span>): nat {
    if spans == [] then 0 else TotalMs(spans[..|spans| - 1]) + spans[|spans| - 1].d
  }

  lemma {:induction false} TotalAdds(a: seq<Span>, b: seq<Span>)
    ensures TotalMs(a + b) == TotalMs(a) + TotalMs(b)
    ensures |a| == 1 ==> TotalMs(a) == a[0].d
  {
    if b == [] {
      assert a + b == a;
    } else {
      assert (a + b)[..|a + b| - 1] == a + b[..|b| - 1];
      TotalAdds(a, b[..|b| - 1]);
    }
  }

  /** The announced length of a recorded range is the sum of its timeline. */
  method RenderMpd(segs: seq<Meta>, secs: nat, live: bool) returns (mpd: Mpd)
    requires segs != []
    ensures mpd == Mpd(live, Stamp(segs[0].start), mpd.total, segs[0].id, Timeline(segs, secs))
    ensures mpd.total == if live then None else Some(TotalMs(mpd.timeline))
    ensures Spans(mpd.timeline, segs, secs)
  {
    var total := 0;
    var spans: seq<Span> := [];
    for i := 0 to |segs|
      invariant spans == Timeline(segs, secs)[..i]
      invariant total == TotalMs(spans)
    {
      var d := DurationMs(segs[i], secs);
      total := total + d;
      spans := spans + [Span(Stamp(segs[i].start), d)];
      assert spans[..|spans| - 1] == Timeline(segs, secs)[..i];
    }
    mpd := Mpd(live, Stamp(segs[0].start), if live then None else Some(total), segs[0].id, spans);
  }

  /** `None` stands for the manifest with an empty period that a camera without segments gets. */
  method GenerateLiveMpd(ix: SegmentIndex, camera: seq<byte>, secs: nat) returns (mpd: Option<Mpd>)
    ensures ListsAll(ix.entries, camera, ForCamera(ix.State(), camera))
    ensures var w := Window(ForCamera(ix.State(), camera));
            && (mpd.None? <==> w == [])
            && (mpd.Some? ==> mpd.value == Mpd(true, Stamp(w[0].start), None, w[0].id, Timeline(w, secs)))
  {
    ForCameraListsAll(ix.State(), camera);
    hide ListsAll;
    var all := Filter(ix.entries, (m: Meta) => m.camera == camera);
    assert all == ForCamera(ix.State(), camera);
    if all == [] {
      return None;
    }
    var rendered := RenderMpd(if |all| < LIVE_WINDOW then all else all[|all| - LIVE_WINDOW..], secs, true);
    mpd := Some(rendered);
  }

  /** `None` when nothing overlaps the range. */
  method GenerateVodMpd(ix: SegmentIndex, camera: seq<byte>, from: Instant, to: Instant, secs: nat)
    returns (mpd: Option<Mpd>)
    ensures var segs := InRange(ix.State(), camera, from, to);
            && ListsRange(ix.entries, camera, from, to, segs)
            && (mpd.None? <==> segs == [])
            && (mpd.Some? ==> mpd.value == Mpd(false, Stamp(segs[0].start), Some(TotalMs(Timeline(segs, secs))),
                                               segs[0].id, Timeline(segs, secs)))
  {
    InRangeListsRange(ix.State(), camera, from, to);
    hide ListsRange;
    var segs := Filter(ix.entries, (m: Meta) => m.camera == camera && m.start < to && m.end > from);
    assert segs == InRange(ix.State(), camera, from, to);
    if segs == [] {
      return None;
    }
    var rendered := RenderMpd(segs, secs, false);
    mpd := Some(rendered);
  }

  /** The address a player expands for timeline entry j: the template holds nothing but the number. */
  function Expanded(startNumber: nat, j: nat): nat {
    startNumber + j
  }

  /** Every timeline entry leads to its own segment exactly when the listed ids go up without gaps. */
  lemma DashNamesIff(segs: seq<Meta>)
    requires segs != []
    ensures (forall j: nat :: j < |segs| ==> Expanded(segs[0].id, j) == segs[j].id)
            <==> IdsIncrease(segs) && segs[|segs| - 1].id - segs[0].id == |segs| - 1
  {
    hide IdsIncrease;
    NumbersAgreeIff(segs);
    if NumbersAgree(segs) {
      assert forall j: nat :: j < |segs| ==> Expanded(segs[0].id, j) == segs[j].id;
    } else {
      var j: nat :| j < |segs| && segs[j].id != segs[0].id + j;
      assert Expanded(segs[0].id, j) != segs[j].id;
    }
  }

  /** What a player counts in either kind of HLS playlist, and what it expands in DASH, is segment j's own id. */
  ghost predicate PlayersAgree(segs: seq<Meta>, secs: nat) {
    forall j: nat :: j < |segs| ==>
      && |Play(LinesOf(segs, secs), segs[0].id, false)| == |segs|
      && |Play([Discontinuity] + LinesOf(segs, secs), segs[0].id, false)| == |segs|
      && Play(LinesOf(segs, secs), segs[0].id, false)[j].number == segs[j].id
      && Play([Discontinuity] + LinesOf(segs, secs), segs[0].id, false)[j].number == segs[j].id
      && Expanded(segs[0].id, j) == segs[j].id
  }

  lemma ConsecutiveAgree(segs: seq<Meta>, secs: nat)
    requires NumbersAgree(segs)
    ensures PlayersAgree(segs, secs)
  {
    if segs != [] {
      LinesReadBack(segs, secs, segs[0].id, false);
      VodPlaylistReads(segs, secs);
      hide LinesOf, Play;
    }
  }

  /** With one camera whose segments have non-decreasing start and end times, both protocols agree on every
      number, in the live window and in any time range. */
  lemma OneCameraManifests(n: nat, capacity: nat, now: Instant, ops: seq<Op>, camera: seq<byte>, from: Instant,
                           to: Instant, secs: nat)
    requires 0 < n < U64 && OnlyCamera(ops, camera) && ArriveByStart(ops, camera) && ArriveByEnd(ops, camera)
    ensures var ix := RunAll(Fresh(n, capacity, now), ops).sys.index;
            PlayersAgree(Window(ForCamera(ix, camera)), secs) && PlayersAgree(InRange(ix, camera, from, to), secs)
  {
    OneCameraNumbers(n, capacity, now, ops, camera, from, to);
    var ix := RunAll(Fresh(n, capacity, now), ops).sys.index;
    ConsecutiveAgree(Window(ForCamera(ix, camera)), secs);
    ConsecutiveAgree(InRange(ix, camera, from, to), secs);
  }

  /** Segments that do not overlap give timeline entries that do not, rounded as they are. */
  lemma TimelineApart(segs: seq<Meta>, secs: nat, j: nat)
    requires j + 1 < |segs| && segs[j].end <= segs[j + 1].start && Millis(segs[j].end - segs[j].start) > 0
    ensures var t := Timeline(segs, secs); t[j].t + t[j].d <= t[j + 1].t
  {
    var s, e := segs[j].start, segs[j].end;
    assert s / 1_000_000 + (e - s) / 1_000_000 <= e / 1_000_000;
    assert e / 1_000_000 <= segs[j + 1].start / 1_000_000;
  }
}
