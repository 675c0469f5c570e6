/** Recovering records from the raw bytes of a pool file. Files have their full length, so the end of the
    file is the scan's limit. */
module PoolScan {
  import opened Bytes
  import opened RecordFormat

  datatype Scanned = Scanned(camera: seq<byte>, start: Instant, end: Instant,
                             poolIdx: nat, poolId: nat, offset: nat, size: nat)

  /** Which slot is scanned, the id its header gave, and the clock used for unrepresentable times. */
  datatype Origin = Origin(poolIdx: nat, poolId: nat, now: Instant)

  /** A record with the magic starts at `off` and ends inside the file. */
  predicate Fits(file: seq<byte>, off: nat) {
    off + RECORD_HEADER <= |file|
    && var h := ParseHeader(file[off..off + RECORD_HEADER]);
       h.Some? && off + RECORD_HEADER + h.value.dataLen <= |file|
  }

  /** That is: 40 more bytes, the magic at their head, and room for the payload length in their last four. */
  lemma FitsIff(file: seq<byte>, off: nat)
    ensures Fits(file, off) <==>
            && off + 40 <= |file| && StartsWithMagic(file[off..off + 40])
            && off + 40 + LengthField(file[off..off + 40]) <= |file|
  {
    hide ParseHeader;
    if off + 40 <= |file| {
      HeaderMeans(file[off..off + 40]);
    }
  }

  function ToScanned(h: Header, o: Origin, off: nat): Scanned {
    Scanned(h.camera, FromSecs(h.startSecs, o.now), FromSecs(h.endSecs, o.now),
            o.poolIdx, o.poolId, off, RECORD_HEADER + h.dataLen)
  }

  function RecordAt(file: seq<byte>, o: Origin, off: nat): (r: Scanned)
    requires Fits(file, off)
    ensures r.size >= RECORD_HEADER && off + r.size <= |file| && r.offset == off
  {
    ToScanned(ParseHeader(file[off..off + RECORD_HEADER]).value, o, off)
  }

  /** The records found from `off` on, up to the first place where none fits. */
  function ScanFrom(file: seq<byte>, o: Origin, off: nat): seq<Scanned>
    decreases |file| - off
  {
    if Fits(file, off) then
      var r := RecordAt(file, o, off);
      [r] + ScanFrom(file, o, off + r.size)
    else []
  }

  method ScanRecords(file: seq<byte>, o: Origin) returns (records: seq<Scanned>)
    requires |file| >= POOL_HEADER
    ensures records == ScanFrom(file, o, POOL_HEADER)
  {
    hide ParseHeader;
    records := [];
    var offset: nat := POOL_HEADER;
    while offset + RECORD_HEADER <= |file|
      invariant offset <= |file|
      invariant ScanFrom(file, o, POOL_HEADER) == records + ScanFrom(file, o, offset)
      decreases |file| - offset
    {
      var header := ParseHeader(file[offset..offset + RECORD_HEADER]);
      if header.None? {
        break;
      }
      var size := RECORD_HEADER + header.value.dataLen;
      if offset + size > |file| {
        break;
      }
      var record := ToScanned(header.value, o, offset);
      ghost var rest := ScanFrom(file, o, offset + size);
      assert ScanFrom(file, o, offset) == [record] + rest;
      assert records + ([record] + rest) == (records + [record]) + rest;
      records := records + [record];
      offset := offset + size;
    }
  }

  function TotalSize(records: seq<Scanned>): nat {
    if records == [] then 0 else records[0].size + TotalSize(records[1..])
  }

  /** The records lie one after the other, without gaps, from `lo` to `hi`. */
  predicate Tiles(records: seq<Scanned>, lo: nat, hi: nat) {
    if records == [] then lo == hi
    else records[0].offset == lo && records[0].size >= RECORD_HEADER && Tiles(records[1..], lo + records[0].size, hi)
  }

  /** Whatever the bytes are, the scan ends and its records tile the file from the start offset on. */
  lemma {:induction false} ScanTiles(file: seq<byte>, o: Origin, off: nat)
    requires off <= |file|
    ensures var s := ScanFrom(file, o, off);
            off + TotalSize(s) <= |file| && Tiles(s, off, off + TotalSize(s))
            && !Fits(file, off + TotalSize(s))
    decreases |file| - off
  {
    hide ParseHeader;
    if !Fits(file, off) {
    } else {
      ScanTiles(file, o, off + RecordAt(file, o, off).size);
    }
  }

  /** Tiling, index by index. */
  lemma {:induction false} TilesAt(records: seq<Scanned>, lo: nat, hi: nat, i: nat, j: nat)
    requires Tiles(records, lo, hi) && i <= j < |records|
    ensures lo <= records[i].offset && records[j].offset + records[j].size <= hi && records[i].size >= RECORD_HEADER
    ensures i < j ==> records[i].offset + records[i].size <= records[j].offset
    ensures lo + TotalSize(records) == hi
  {
    var rest := records[1..];
    TilesTotal(rest, lo + records[0].size, hi);
    if i > 0 {
      TilesAt(rest, lo + records[0].size, hi, i - 1, j - 1);
    } else if j > 0 {
      TilesAt(rest, lo + records[0].size, hi, 0, j - 1);
    }
  }

  lemma {:induction false} TilesTotal(records: seq<Scanned>, lo: nat, hi: nat)
    requires Tiles(records, lo, hi)
    ensures lo + TotalSize(records) == hi
  {
    if records == [] {
    } else {
      TilesTotal(records[1..], lo + records[0].size, hi);
    }
  }

  /** A scan restarted at one of its own record boundaries finds exactly the remaining records. */
  lemma {:induction false} ScanFromBoundary(file: seq<byte>, o: Origin, off: nat, k: nat)
    requires k <= |ScanFrom(file, o, off)|
    ensures ScanFrom(file, o, off + TotalSize(ScanFrom(file, o, off)[..k])) == ScanFrom(file, o, off)[k..]
    decreases k
  {
    hide ParseHeader;
    var s := ScanFrom(file, o, off);
    if k == 0 {
    } else {
      var rest := ScanFrom(file, o, off + s[0].size);
      assert s[1..] == rest;
      ScanFromBoundary(file, o, off + s[0].size, k - 1);
      assert s[..k][1..] == rest[..k - 1];
      assert s[..k][0] == s[0];
      assert s[k..] == rest[k - 1..];
    }
  }

  /** The scan from `off` depends only on the bytes from `off` on. */
  lemma {:induction false} ScanSameTail(f: seq<byte>, g: seq<byte>, o: Origin, off: nat)
    requires off <= |f| == |g| && f[off..] == g[off..]
    ensures ScanFrom(f, o, off) == ScanFrom(g, o, off)
    decreases |f| - off
  {
    hide ParseHeader;
    if off + RECORD_HEADER <= |f| {
      assert f[off..off + RECORD_HEADER] == f[off..][..RECORD_HEADER];
      assert g[off..off + RECORD_HEADER] == g[off..][..RECORD_HEADER];
    }
    if !Fits(f, off) {
    } else {
      var next := off + RecordAt(f, o, off).size;
      assert f[next..] == f[off..][next - off..];
      assert g[next..] == g[off..][next - off..];
      ScanSameTail(f, g, o, next);
    }
  }

  // ---- records laid out one after the other ----

  function Concat(raws: seq<seq<byte>>): seq<byte> {
    if raws == [] then [] else raws[0] + Concat(raws[1..])
  }

  lemma {:induction false} ConcatSnoc(raws: seq<seq<byte>>, raw: seq<byte>)
    ensures Concat(raws + [raw]) == Concat(raws) + raw
  {
    if raws == [] {
      assert raws + [raw] == [raw];
    } else {
      assert (raws + [raw])[1..] == raws[1..] + [raw];
      ConcatSnoc(raws[1..], raw);
    }
  }

  predicate AllSelfDescribing(raws: seq<seq<byte>>) {
    forall i :: 0 <= i < |raws| ==> SelfDescribing(raws[i])
  }

  function ScannedFrom(raw: seq<byte>, o: Origin, off: nat): Scanned
    requires SelfDescribing(raw)
  {
    ToScanned(ParseHeader(raw[..RECORD_HEADER]).value, o, off)
  }

  /** What scanning the records `raws`, laid out from `off` on, should yield. */
  function Listing(raws: seq<seq<byte>>, o: Origin, off: nat): (r: seq<Scanned>)
    requires AllSelfDescribing(raws)
    ensures |r| == |raws|
  {
    if raws == [] then [] else [ScannedFrom(raws[0], o, off)] + Listing(raws[1..], o, off + |raws[0]|)
  }

  lemma FirstRecord(file: seq<byte>, o: Origin, off: nat, raw: seq<byte>)
    requires SelfDescribing(raw) && off + |raw| <= |file| && file[off..off + |raw|] == raw
    ensures ScanFrom(file, o, off) == [ScannedFrom(raw, o, off)] + ScanFrom(file, o, off + |raw|)
  {
    hide ParseHeader;
    assert file[off..off + RECORD_HEADER] == file[off..off + |raw|][..RECORD_HEADER];
    assert Fits(file, off) && RecordAt(file, o, off) == ScannedFrom(raw, o, off);
  }

  lemma LaidOut(file: seq<byte>, off: nat, raw: seq<byte>, rest: seq<byte>)
    requires off + |raw + rest| <= |file| && file[off..off + |raw + rest|] == raw + rest
    ensures file[off..off + |raw|] == raw
    ensures file[off + |raw|..off + |raw| + |rest|] == rest
  {
    var part := file[off..off + |raw + rest|];
    assert file[off..off + |raw|] == part[..|raw|];
    assert file[off + |raw|..off + |raw| + |rest|] == part[|raw|..];
  }

  /** Records written one after the other are found in order, as a prefix of the scan; what else the scan
      returns is what it finds after them. */
  lemma {:induction false} ScanOfRecords(file: seq<byte>, o: Origin, off: nat, raws: seq<seq<byte>>)
    requires AllSelfDescribing(raws) && off + |Concat(raws)| <= |file|
    requires file[off..off + |Concat(raws)|] == Concat(raws)
    ensures ScanFrom(file, o, off) == Listing(raws, o, off) + ScanFrom(file, o, off + |Concat(raws)|)
    decreases |raws|
  {
    hide ScanFrom, SelfDescribing, ScannedFrom;
    if raws == [] {
    } else {
      var raw, rest := raws[0], raws[1..];
      assert Concat(raws) == raw + Concat(rest);
      LaidOut(file, off, raw, Concat(rest));
      FirstRecord(file, o, off, raw);
      ScanOfRecords(file, o, off + |raw|, rest);
    }
  }

  /** Every record found describes itself and reads as what the scan said. */
  lemma {:induction false} ScannedAreSelfDescribing(file: seq<byte>, o: Origin, off: nat, i: nat)
    requires off <= |file| && i < |ScanFrom(file, o, off)|
    ensures var r := ScanFrom(file, o, off)[i];
            off <= r.offset && r.offset + r.size <= |file| && r.poolIdx == o.poolIdx && r.poolId == o.poolId
            && var raw := file[r.offset..r.offset + r.size];
               SelfDescribing(raw) && ScannedFrom(raw, o, r.offset) == r
    decreases i
  {
    hide ParseHeader;
    var r := RecordAt(file, o, off);
    if i == 0 {
      assert file[off..off + r.size][..RECORD_HEADER] == file[off..off + RECORD_HEADER];
    } else {
      ScannedAreSelfDescribing(file, o, off + r.size, i - 1);
    }
  }

  /** The instant a count of seconds stands for; one outside the date library's range reads as the clock. */
  ghost predicate IsTime(secs: int, now: Instant, t: Instant) {
    if -8_334_601_228_800 <= secs <= 8_210_266_876_799 then t == secs * 1_000_000_000 else t == now
  }

  /** Every record found is what its own 40 header bytes say, at the place where they stand. */
  lemma ScannedFields(file: seq<byte>, o: Origin, off: nat, i: nat) returns (v: Header)
    requires off <= |file| && i < |ScanFrom(file, o, off)|
    ensures var r := ScanFrom(file, o, off)[i];
            && off <= r.offset && r.offset + 40 <= |file|
            && var h := file[r.offset..r.offset + 40];
               && StartsWithMagic(h) && r.size == 40 + LengthField(h)
               && FieldsAre(h, v) && r.camera == v.camera
               && IsTime(v.startSecs, o.now, r.start) && IsTime(v.endSecs, o.now, r.end)
               && r.poolIdx == o.poolIdx && r.poolId == o.poolId
  {
    ScannedAreSelfDescribing(file, o, off, i);
    var r := ScanFrom(file, o, off)[i];
    var raw := file[r.offset..r.offset + r.size];
    hide ParseHeader, ScanFrom, FieldsAre;
    assert raw[..RECORD_HEADER] == file[r.offset..r.offset + 40];
    HeaderMeans(raw[..RECORD_HEADER]);
    v := ParseHeader(raw[..RECORD_HEADER]).value;
  }

  lemma NoMagicNoRecord(file: seq<byte>, o: Origin, off: nat)
    requires forall i :: off <= i < |file| ==> file[i] == 0
    ensures ScanFrom(file, o, off) == []
  {
    if off + RECORD_HEADER <= |file| {
      assert file[off..off + RECORD_HEADER][..4][0] == 0;
    }
  }
}
