/** Bytes, little-endian integers, instants and the few sequence facts shared by the whole model. */
module Bytes {
  type byte = x: int | 0 <= x < 256

  const U32: int := 0x1_0000_0000
  const U64: int := 0x1_0000_0000_0000_0000
  const I63: int := 0x8000_0000_0000_0000

  /** A UTC instant in nanoseconds since the epoch, inside the range chrono can represent
      (years -262143 to 262142), so its whole seconds always fit the i64 of a record header. */
  const NANOS: int := 1_000_000_000
  const MIN_SECS: int := -8_334_601_228_800
  const MAX_SECS: int := 8_210_266_876_799
  type Instant = t: int | MIN_SECS * NANOS <= t < (MAX_SECS + 1) * NANOS witness 0

  /** Whole seconds, rounded towards minus infinity. */
  function Secs(t: Instant): int {
    t / NANOS
  }

  /** The instant a record header's seconds stand for; seconds outside chrono's range read as `now`. */
  function FromSecs(secs: int, now: Instant): Instant {
    if MIN_SECS <= secs <= MAX_SECS then secs * NANOS else now
  }

  /** Milliseconds of a duration in nanoseconds, truncated towards zero. */
  function Millis(d: int): int {
    if d >= 0 then d / 1_000_000 else -(-d / 1_000_000)
  }

  lemma FloorSecs(t: Instant, now: Instant)
    ensures FromSecs(Secs(t), now) <= t < FromSecs(Secs(t), now) + NANOS
    ensures FromSecs(Secs(t), now) == Secs(t) * NANOS
  {
  }

  function Pow256(n: nat): (p: nat)
    ensures p > 0
  {
    if n == 0 then 1 else 256 * Pow256(n - 1)
  }

  function Zeros(n: nat): (s: seq<byte>) {
    seq(n, _ => 0)
  }

  /** The low `n` bytes of `v`, least significant first. */
  function Little(v: nat, n: nat): (s: seq<byte>)
    ensures |s| == n
  {
    if n == 0 then [] else [v % 256] + Little(v / 256, n - 1)
  }

  function FromLittle(s: seq<byte>): nat {
    if s == [] then 0 else s[0] + 256 * FromLittle(s[1..])
  }

  lemma {:induction false} LittleRoundTrip(v: nat, n: nat)
    requires v < Pow256(n)
    ensures FromLittle(Little(v, n)) == v
  {
    if n == 0 {
    } else {
      LittleRoundTrip(v / 256, n - 1);
      assert Little(v, n)[1..] == Little(v / 256, n - 1);
    }
  }

  /** Byte i of a little-endian number is its i-th base-256 digit, written ... */
  lemma {:induction false} LittleDigit(v: nat, n: nat, i: nat)
    requires i < n
    ensures Little(v, n)[i] == v / Pow256(i) % 256
  {
    if i == 0 {
    } else {
      LittleDigit(v / 256, n - 1, i - 1);
      DigitShift(v, Pow256(i - 1));
    }
  }

  /** ... or read. */
  lemma {:induction false} FromLittleDigit(s: seq<byte>, i: nat)
    requires i < |s|
    ensures FromLittle(s) / Pow256(i) % 256 == s[i]
  {
    if i == 0 {
    } else {
      FromLittleDigit(s[1..], i - 1);
      var v, p := FromLittle(s), Pow256(i - 1);
      LowDigit(s);
      DigitShift(v, p);
      assert Pow256(i) == 256 * p;
    }
  }

  lemma LowDigit(s: seq<byte>)
    requires s != []
    ensures FromLittle(s) / 256 == FromLittle(s[1..]) && FromLittle(s) % 256 == s[0]
  {
  }

  lemma DigitShift(v: nat, p: nat)
    requires p > 0
    ensures 256 * p > 0 && v / (256 * p) == v / 256 / p
  {
    var a, q := v / 256, v / 256 / p;
    assert a == q * p + a % p && 0 <= a % p <= p - 1;
    assert 256 * a == 256 * p * q + 256 * (a % p);
    var rest := 256 * (a % p) + v % 256;
    assert v == 256 * p * q + rest && 0 <= rest < 256 * p;
    QuotientIs(v, 256 * p, q, rest);
  }

  lemma QuotientIs(v: nat, d: nat, q: nat, rest: nat)
    requires d > 0 && v == d * q + rest && rest < d
    ensures v / d == q
  {
    var k: int := v / d - q;
    assert v == d * (v / d) + v % d;
    assert d * k == rest - v % d;
    assert k > 0 ==> d * k >= d;
    assert k < 0 ==> d * k <= -(d as int);
  }

  lemma {:induction false} FromLittleBound(s: seq<byte>)
    ensures FromLittle(s) < Pow256(|s|)
  {
    if s == [] {
    } else {
      FromLittleBound(s[1..]);
    }
  }

  lemma Widths()
    ensures Pow256(4) == U32 && Pow256(8) == U64
  {
    assert Pow256(2) == 0x1_0000;
    assert Pow256(4) == 0x1_0000_0000;
    assert Pow256(6) == 0x1_0000_0000_0000;
  }

  /** Two's complement, eight bytes. */
  function I64Bytes(x: int): (s: seq<byte>)
    ensures |s| == 8
  {
    Little(x % U64, 8)
  }

  function I64From(s: seq<byte>): int {
    var u := FromLittle(s);
    if u < I63 then u else u - U64
  }

  lemma I64RoundTrip(x: int)
    requires -I63 <= x < I63
    ensures I64From(I64Bytes(x)) == x
  {
    Widths();
    LittleRoundTrip(x % U64, 8);
  }

  /** `file` with `data` written over it at `at`. */
  function Patch(file: seq<byte>, at: nat, data: seq<byte>): (r: seq<byte>)
    requires at + |data| <= |file|
    ensures |r| == |file|
  {
    file[..at] + data + file[at + |data|..]
  }

  /** A write touches its own range and nothing else. */
  lemma PatchRange(file: seq<byte>, at: nat, data: seq<byte>, lo: nat, hi: nat)
    requires at + |data| <= |file| && lo <= hi <= |file|
    ensures hi <= at || at + |data| <= lo ==> Patch(file, at, data)[lo..hi] == file[lo..hi]
    ensures Patch(file, at, data)[at..at + |data|] == data
  {
    var p := Patch(file, at, data);
    if hi <= at || at + |data| <= lo {
      forall i | 0 <= i < hi - lo ensures p[lo..hi][i] == file[lo..hi][i] {
        assert p[lo..hi][i] == p[lo + i];
      }
    }
  }

  /** Writing a byte string in two consecutive pieces is writing it at once. */
  lemma PatchPieces(file: seq<byte>, at: nat, data: seq<byte>, k: nat, m: nat)
    requires at + |data| <= |file| && k <= m <= |data|
    ensures Patch(Patch(file, at, data[..k]), at + k, data[k..m]) == Patch(file, at, data[..m])
  {
    var p, q := Patch(Patch(file, at, data[..k]), at + k, data[k..m]), Patch(file, at, data[..m]);
    forall i | 0 <= i < |file| ensures p[i] == q[i] {
    }
  }
}
