/** The on-disk formats: the 64-byte pool header and the 40-byte record header in front of each payload. */
module RecordFormat {
  import opened Bytes

  const POOL_HEADER: nat := 64
  const RECORD_HEADER: nat := 40

  const POOL_MAGIC: seq<byte> := [0x4E, 0x56, 0x52, 0x50, 0x4F, 0x4F, 0x4C, 0x30]  // NVRPOOL0
  const RECORD_MAGIC: seq<byte> := [0x4E, 0x52, 0x45, 0x43]  // NREC

  datatype Option<+T> = None | Some(value: T)

  /** A segment handed to the writer. `camera` holds the UTF-8 bytes of the camera id. */
  datatype Request = Request(camera: seq<byte>, start: Instant, end: Instant, data: seq<byte>)

  datatype Header = Header(camera: seq<byte>, startSecs: int, endSecs: int, dataLen: nat)

  // ---- camera ids ----

  function FirstBytes(id: seq<byte>): seq<byte> {
    if |id| < 16 then id else id[..16]
  }

  function CameraField(id: seq<byte>): (f: seq<byte>)
    ensures |f| == 16
  {
    FirstBytes(id) + Zeros(16 - |FirstBytes(id)|)
  }

  function TrimNuls(s: seq<byte>): (r: seq<byte>)
    ensures r <= s && (r != [] ==> r[|r| - 1] != 0)
  {
    if s != [] && s[|s| - 1] == 0 then TrimNuls(s[..|s| - 1]) else s
  }

  predicate Continuation(b: byte) {
    0x80 <= b <= 0xBF
  }

  /** Length of the well-formed UTF-8 sequence `s` starts with, or 0 if it starts with none. */
  function Utf8Lead(s: seq<byte>): (k: nat)
    requires s != []
    ensures k <= |s|
  {
    var a := s[0];
    if a < 0x80 then 1
    else if 0xC2 <= a <= 0xDF && |s| >= 2 && Continuation(s[1]) then 2
    else if 0xE0 <= a <= 0xEF && |s| >= 3 && Continuation(s[1]) && Continuation(s[2])
            && (a == 0xE0 ==> s[1] >= 0xA0) && (a == 0xED ==> s[1] < 0xA0) then 3
    else if 0xF0 <= a <= 0xF4 && |s| >= 4 && Continuation(s[1]) && Continuation(s[2]) && Continuation(s[3])
            && (a == 0xF0 ==> s[1] >= 0x90) && (a == 0xF4 ==> s[1] < 0x90) then 4
    else 0
  }

  predicate Utf8(s: seq<byte>) {
    s == [] || (Utf8Lead(s) > 0 && Utf8(s[Utf8Lead(s)..]))
  }

  /** A Unicode scalar value: no surrogate. */
  predicate Scalar(c: nat) {
    c <= 0xD7FF || 0xE000 <= c <= 0x10FFFF
  }

  /** The octets of a character (section 3 of RFC 3629). */
  function EncodeScalar(c: nat): (s: seq<byte>)
    requires Scalar(c)
    ensures s != []
  {
    if c < 0x80 then [c]
    else if c < 0x800 then [0xC0 + c / 64, 0x80 + c % 64]
    else if c < 0x10000 then [0xE0 + c / 64 / 64, 0x80 + c / 64 % 64, 0x80 + c % 64]
    else [0xF0 + c / 64 / 64 / 64, 0x80 + c / 64 / 64 % 64, 0x80 + c / 64 % 64, 0x80 + c % 64]
  }

  function EncodeScalars(cs: seq<nat>): seq<byte>
    requires forall i :: 0 <= i < |cs| ==> Scalar(cs[i])
  {
    if cs == [] then [] else EncodeScalar(cs[0]) + EncodeScalars(cs[1..])
  }

  lemma StartsWithScalar(s: seq<byte>, c: nat)
    requires Scalar(c) && EncodeScalar(c) <= s
    ensures Utf8Lead(s) == |EncodeScalar(c)|
  {
    var e := EncodeScalar(c);
    assert forall i :: 0 <= i < |e| ==> s[i] == e[i];
  }

  lemma Digits64(high: nat, low: byte) returns (c: nat)
    requires low < 64
    ensures c == 64 * high + low && c / 64 == high && c % 64 == low
  {
    c := 64 * high + low;
  }

  lemma LeadIsScalar(s: seq<byte>) returns (c: nat)
    requires s != [] && Utf8Lead(s) > 0
    ensures Scalar(c) && EncodeScalar(c) == s[..Utf8Lead(s)]
  {
    var k := Utf8Lead(s);
    if k == 1 {
      c := s[0];
    } else if k == 2 {
      c := Digits64(s[0] - 0xC0, s[1] - 0x80);
    } else if k == 3 {
      c := Digits64(s[0] - 0xE0, s[1] - 0x80);
      c := Digits64(c, s[2] - 0x80);
    } else {
      c := Digits64(s[0] - 0xF0, s[1] - 0x80);
      c := Digits64(c, s[2] - 0x80);
      c := Digits64(c, s[3] - 0x80);
    }
  }

  /** The test accepts exactly the encodings of sequences of Unicode scalar values. */
  lemma Utf8Iff(s: seq<byte>)
    ensures Utf8(s) <==> exists cs :: (forall i :: 0 <= i < |cs| ==> Scalar(cs[i])) && EncodeScalars(cs) == s
  {
    if Utf8(s) {
      var cs := Characters(s);
      assert EncodeScalars(cs) == s;
    }
    if cs: seq<nat> :| (forall i :: 0 <= i < |cs| ==> Scalar(cs[i])) && EncodeScalars(cs) == s {
      EncodedIsUtf8(cs);
    }
  }

  lemma {:induction false} Characters(s: seq<byte>) returns (cs: seq<nat>)
    requires Utf8(s)
    ensures (forall i :: 0 <= i < |cs| ==> Scalar(cs[i])) && EncodeScalars(cs) == s
    decreases |s|
  {
    hide EncodeScalar, Scalar, Utf8Lead;
    if s == [] {
      cs := [];
    } else {
      var c := LeadIsScalar(s);
      var rest := Characters(s[Utf8Lead(s)..]);
      cs := [c] + rest;
      assert cs[1..] == rest;
    }
  }

  lemma {:induction false} EncodedIsUtf8(cs: seq<nat>)
    requires forall i :: 0 <= i < |cs| ==> Scalar(cs[i])
    ensures Utf8(EncodeScalars(cs))
  {
    hide EncodeScalar, Scalar, Utf8Lead;
    if cs == [] {
    } else {
      EncodedIsUtf8(cs[1..]);
      var s := EncodeScalars(cs);
      StartsWithScalar(s, cs[0]);
      assert s[|EncodeScalar(cs[0])|..] == EncodeScalars(cs[1..]);
    }
  }

  /** What a restart reads back: the field if it is UTF-8 (otherwise nothing), without trailing NULs. */
  function DecodeCamera(field: seq<byte>): seq<byte> {
    if Utf8(field) then TrimNuls(field) else []
  }

  lemma {:induction false} Utf8ZeroPad(s: seq<byte>, n: nat)
    requires Utf8(s)
    ensures Utf8(s + Zeros(n))
    decreases |s|, n
  {
    var p := s + Zeros(n);
    if s == [] && n == 0 {
    } else if s == [] {
      assert Utf8Lead(p) == 1;
      assert p[1..] == [] + Zeros(n - 1);
      Utf8ZeroPad([], n - 1);
    } else {
      var k := Utf8Lead(s);
      assert Utf8Lead(p) == k;
      assert p[k..] == s[k..] + Zeros(n);
      Utf8ZeroPad(s[k..], n);
    }
  }

  lemma {:induction false} TrimZeroPad(s: seq<byte>, n: nat)
    ensures TrimNuls(s + Zeros(n)) == TrimNuls(s)
  {
    if n == 0 {
      assert s + Zeros(0) == s;
    } else {
      assert (s + Zeros(n))[..|s| + n - 1] == s + Zeros(n - 1);
      TrimZeroPad(s, n - 1);
    }
  }

  lemma ShortIdDecodes(id: seq<byte>)
    requires Utf8(id) && |id| <= 16
    ensures DecodeCamera(CameraField(id)) == TrimNuls(id)
  {
    var n := 16 - |id|;
    var field := CameraField(id);
    assert field == id + Zeros(n);
    assert Utf8(field) by {
      Utf8ZeroPad(id, n);
    }
    TrimZeroPad(id, n);
  }

  lemma DecodedIsShort(field: seq<byte>)
    ensures |DecodeCamera(field)| <= |field|
  {
  }

  /** A camera id survives a restart exactly when it has at most 16 bytes and no trailing NUL. */
  lemma CameraIdRoundTrip(id: seq<byte>)
    requires Utf8(id)
    ensures DecodeCamera(CameraField(id)) == id <==> |id| <= 16 && (id == [] || id[|id| - 1] != 0)
  {
    DecodedIsShort(CameraField(id));
    if |id| <= 16 {
      ShortIdDecodes(id);
    }
  }

  /** `r` is `s` without the NULs at its end, and no more than those. */
  predicate Trimmed(s: seq<byte>, r: seq<byte>) {
    r <= s && (r == [] || r[|r| - 1] != 0) && forall i :: |r| <= i < |s| ==> s[i] == 0
  }

  lemma {:induction false} TrimNulsTrims(s: seq<byte>)
    ensures Trimmed(s, TrimNuls(s))
  {
    if s == [] || s[|s| - 1] != 0 {
    } else {
      TrimNulsTrims(s[..|s| - 1]);
    }
  }

  /** What a restart makes of any id: its first 16 bytes without trailing NULs, or nothing if the cut goes through
      a character. Cameras whose ids agree in 16 bytes become one. */
  lemma RememberedId(id: seq<byte>)
    requires Utf8(id)
    ensures var kept, read := (if |id| <= 16 then id else id[..16]), DecodeCamera(CameraField(id));
            if Utf8(kept) then Trimmed(kept, read) else read == []
  {
    var kept := if |id| <= 16 then id else id[..16];
    assert CameraField(id) == kept + Zeros(16 - |kept|);
    if |id| <= 16 {
      ShortIdDecodes(id);
    } else {
      assert CameraField(id) == kept;
    }
    TrimNulsTrims(kept);
  }

  // ---- record header ----

  function EncodeHeader(q: Request): (h: seq<byte>)
    ensures |h| == RECORD_HEADER
  {
    RECORD_MAGIC + CameraField(q.camera) + I64Bytes(Secs(q.start)) + I64Bytes(Secs(q.end)) + Little(|q.data| % U32, 4)
  }

  function EncodeRecord(q: Request): (r: seq<byte>)
    ensures |r| == RECORD_HEADER + |q.data| && r[RECORD_HEADER..] == q.data && r[..RECORD_HEADER] == EncodeHeader(q)
  {
    EncodeHeader(q) + q.data
  }

  function ParseHeader(h: seq<byte>): Option<Header>
    requires |h| == RECORD_HEADER
  {
    if h[..4] != RECORD_MAGIC then None
    else Some(Header(DecodeCamera(h[4..20]), I64From(h[20..28]), I64From(h[28..36]), FromLittle(h[36..40])))
  }

  /** Reading back a written header: the id goes through its 16-byte field, times lose their fraction
      of a second, and the length its bits above 32. */
  lemma ParseEncoded(q: Request)
    ensures ParseHeader(EncodeHeader(q)) ==
            Some(Header(DecodeCamera(CameraField(q.camera)), Secs(q.start), Secs(q.end), |q.data| % U32))
  {
    var h := EncodeHeader(q);
    assert h[..4] == RECORD_MAGIC;
    assert h[4..20] == CameraField(q.camera);
    assert h[20..28] == I64Bytes(Secs(q.start));
    assert h[28..36] == I64Bytes(Secs(q.end));
    assert h[36..40] == Little(|q.data| % U32, 4);
    I64RoundTrip(Secs(q.start));
    I64RoundTrip(Secs(q.end));
    Widths();
    LittleRoundTrip(|q.data| % U32, 4);
  }

  /** The header byte by byte: the magic, 16 bytes of the id padded with zeros, both times in whole seconds as
      64-bit two's complement, and the low 32 bits of the payload length, least significant byte first. */
  lemma HeaderBytes(q: Request)
    ensures var h := EncodeHeader(q);
            && |h| == 40 && h[0] == 0x4E && h[1] == 0x52 && h[2] == 0x45 && h[3] == 0x43
            && (forall i :: 0 <= i < 16 ==> h[4 + i] == if i < |q.camera| then q.camera[i] else 0)
            && (forall i :: 0 <= i < 8 ==> h[20 + i] == Secs(q.start) % U64 / Pow256(i) % 256)
            && (forall i :: 0 <= i < 8 ==> h[28 + i] == Secs(q.end) % U64 / Pow256(i) % 256)
            && (forall i :: 0 <= i < 4 ==> h[36 + i] == |q.data| % U32 / Pow256(i) % 256)
  {
    hide Little;
    var h := EncodeHeader(q);
    assert h[4..20] == CameraField(q.camera);
    assert h[20..28] == Little(Secs(q.start) % U64, 8);
    assert h[28..36] == Little(Secs(q.end) % U64, 8);
    assert h[36..40] == Little(|q.data| % U32, 4);
    forall i | 0 <= i < 16 ensures h[4 + i] == if i < |q.camera| then q.camera[i] else 0 {
      assert h[4 + i] == h[4..20][i];
    }
    forall i | 0 <= i < 8
      ensures h[20 + i] == Secs(q.start) % U64 / Pow256(i) % 256 && h[28 + i] == Secs(q.end) % U64 / Pow256(i) % 256
    {
      assert h[20 + i] == h[20..28][i] && h[28 + i] == h[28..36][i];
      LittleDigit(Secs(q.start) % U64, 8, i);
      LittleDigit(Secs(q.end) % U64, 8, i);
    }
    forall i | 0 <= i < 4 ensures h[36 + i] == |q.data| % U32 / Pow256(i) % 256 {
      assert h[36 + i] == h[36..40][i];
      LittleDigit(|q.data| % U32, 4, i);
    }
  }

  predicate StartsWithMagic(h: seq<byte>)
    requires |h| >= 4
  {
    h[0] == 0x4E && h[1] == 0x52 && h[2] == 0x45 && h[3] == 0x43
  }

  /** The payload length in the last four bytes of a header. */
  function LengthField(h: seq<byte>): nat
    requires |h| == 40
  {
    var n: seq<nat> := h;
    n[36] + 0x100 * n[37] + 0x1_0000 * n[38] + 0x100_0000 * n[39]
  }

  /** The other fields of a header, byte by byte. */
  ghost predicate FieldsAre(h: seq<byte>, v: Header)
    requires |h| == 40
  {
    && (if Utf8(h[4..20]) then Trimmed(h[4..20], v.camera) else v.camera == [])
    && -I63 <= v.startSecs < I63 && -I63 <= v.endSecs < I63
    && (forall i :: 0 <= i < 8 ==> v.startSecs % U64 / Pow256(i) % 256 == h[20 + i])
    && (forall i :: 0 <= i < 8 ==> v.endSecs % U64 / Pow256(i) % 256 == h[28 + i])
  }

  /** What 40 bytes mean to a scan: nothing without the magic, else their fields. */
  lemma HeaderMeans(h: seq<byte>)
    requires |h| == 40
    ensures ParseHeader(h).Some? <==> StartsWithMagic(h)
    ensures ParseHeader(h).Some? ==>
              FieldsAre(h, ParseHeader(h).value) && ParseHeader(h).value.dataLen == LengthField(h)
  {
    hide Utf8;
    if ParseHeader(h).Some? {
      assert h[..4][0] == h[0] && h[..4][1] == h[1] && h[..4][2] == h[2] && h[..4][3] == h[3];
      FourBytes(h[36..40]);
      hide FromLittle;
      TrimNulsTrims(h[4..20]);
      I64Means(h[20..28]);
      I64Means(h[28..36]);
    }
  }

  lemma FourBytes(s: seq<byte>)
    requires |s| == 4
    ensures var n: seq<nat> := s; FromLittle(s) == n[0] + 0x100 * n[1] + 0x1_0000 * n[2] + 0x100_0000 * n[3]
  {
    assert FromLittle(s) == s[0] + 256 * FromLittle(s[1..]);
    assert s[1..][1..] == s[2..] && s[2..][1..] == s[3..] && s[3..][1..] == [];
  }

  lemma I64Means(s: seq<byte>)
    requires |s| == 8
    ensures -I63 <= I64From(s) < I63 && forall i :: 0 <= i < 8 ==> I64From(s) % U64 / Pow256(i) % 256 == s[i]
  {
    FromLittleBound(s);
    Widths();
    forall i | 0 <= i < 8 ensures I64From(s) % U64 / Pow256(i) % 256 == s[i] {
      FromLittleDigit(s, i);
    }
  }

  /** A complete record whose header states its own length: what a scan can step over. */
  predicate SelfDescribing(raw: seq<byte>) {
    |raw| >= RECORD_HEADER
    && var h := ParseHeader(raw[..RECORD_HEADER]);
       h.Some? && RECORD_HEADER + h.value.dataLen == |raw|
  }

  /** A written record describes itself exactly when its payload length fits the u32 field. */
  lemma SelfDescribingIff(q: Request)
    ensures SelfDescribing(EncodeRecord(q)) <==> |q.data| < U32
  {
    ParseEncoded(q);
  }

  // ---- pool header ----

  function PoolHeader(poolId: nat, createdAt: Instant): (h: seq<byte>)
    ensures |h| == POOL_HEADER
  {
    POOL_MAGIC + Little(poolId, 8) + I64Bytes(Secs(createdAt)) + Zeros(40)
  }

  /** A header without the magic reads back as id 0. */
  function ReadPoolId(file: seq<byte>): (id: nat)
    requires |file| >= POOL_HEADER
    ensures id < U64
  {
    FromLittleBound(file[8..16]);
    Widths();
    if file[..8] == POOL_MAGIC then FromLittle(file[8..16]) else 0
  }

  /** The file header byte by byte; 40 of its 64 bytes are reserved. */
  lemma PoolHeaderBytes(poolId: nat, createdAt: Instant)
    ensures var h := PoolHeader(poolId, createdAt);
            && |h| == 64 && h[..8] == [0x4E, 0x56, 0x52, 0x50, 0x4F, 0x4F, 0x4C, 0x30]
            && (forall i :: 0 <= i < 8 ==> h[8 + i] == poolId / Pow256(i) % 256)
            && (forall i :: 0 <= i < 8 ==> h[16 + i] == Secs(createdAt) % U64 / Pow256(i) % 256)
            && (forall i :: 24 <= i < 64 ==> h[i] == 0)
  {
    hide Little;
    var h := PoolHeader(poolId, createdAt);
    assert h[8..16] == Little(poolId, 8) && h[16..24] == Little(Secs(createdAt) % U64, 8);
    forall i | 0 <= i < 8
      ensures h[8 + i] == poolId / Pow256(i) % 256 && h[16 + i] == Secs(createdAt) % U64 / Pow256(i) % 256
    {
      assert h[8 + i] == h[8..16][i] && h[16 + i] == h[16..24][i];
      LittleDigit(poolId, 8, i);
      LittleDigit(Secs(createdAt) % U64, 8, i);
    }
  }

  /** What the first bytes of any file say its id is. */
  lemma PoolIdMeans(file: seq<byte>)
    requires |file| >= 64
    ensures file[..8] == [0x4E, 0x56, 0x52, 0x50, 0x4F, 0x4F, 0x4C, 0x30] ==>
              forall i :: 0 <= i < 8 ==> ReadPoolId(file) / Pow256(i) % 256 == file[8 + i]
    ensures file[..8] != [0x4E, 0x56, 0x52, 0x50, 0x4F, 0x4F, 0x4C, 0x30] ==> ReadPoolId(file) == 0
  {
    forall i | 0 <= i < 8 ensures FromLittle(file[8..16]) / Pow256(i) % 256 == file[8 + i] {
      FromLittleDigit(file[8..16], i);
    }
  }

  lemma PoolIdRoundTrip(file: seq<byte>, poolId: nat, createdAt: Instant)
    requires |file| >= POOL_HEADER && poolId < U64
    ensures ReadPoolId(Patch(file, 0, PoolHeader(poolId, createdAt))) == poolId
  {
    var f := Patch(file, 0, PoolHeader(poolId, createdAt));
    assert f[..8] == POOL_MAGIC;
    assert f[8..16] == Little(poolId, 8);
    Widths();
    LittleRoundTrip(poolId, 8);
  }
}
