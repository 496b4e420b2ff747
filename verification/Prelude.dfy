/** Shared vocabulary: bytes, machine integers, optional and failing results, and
    the big-endian and decimal encodings used by several layers. */
module Prelude {

  datatype Option<+T> = None | Some(value: T)

  /** The error codes the modelled operations return; message texts are not modelled. */
  datatype ErrorCode =
    | InvalidFrame
    | ResourceLimit
    | VersionUnsupported
    | UnsupportedFeature
    | UnsupportedProfile
    | UnsupportedRole
    | IntegrityFailed
    | DestinationUnavailable
    | AuthDenied
    | PairingFailed
    | Busy

  datatype Result<+T> = Ok(value: T) | Err(code: ErrorCode) {
    predicate IsFailure() {
      Err?
    }

    function PropagateFailure<U>(): Result<U>
      requires Err?
    {
      Err(code)
    }

    function Extract(): T
      requires Ok?
    {
      value
    }
  }

  type byte = b: int | 0 <= b < 0x100
  type Bytes = seq<byte>

  const TWO_31: int := 0x8000_0000
  const TWO_32: int := 0x1_0000_0000
  const TWO_63: int := 0x8000_0000_0000_0000
  const TWO_64: int := 0x1_0000_0000_0000_0000

  type u32 = x: int | 0 <= x < TWO_32
  type u64 = x: int | 0 <= x < TWO_64
  type i32 = x: int | -TWO_31 <= x < TWO_31
  type i64 = x: int | -TWO_63 <= x < TWO_63

  /** The cast of a signed integer to u64: sign extension. */
  function AsU64(x: i64): (v: u64) {
    if x < 0 then x + TWO_64 else x
  }

  /** The cast `as i64` of a u64. */
  function AsI64(v: u64): (x: i64)
    ensures AsU64(x) == v
  {
    if v >= TWO_63 then v - TWO_64 else v
  }

  /** The cast `as i32` of a u64: keep the low 32 bits and read them as two's complement. */
  function AsI32(v: u64): (x: i32)
    ensures (x - v) % TWO_32 == 0
  {
    var low := v % TWO_32;
    if low >= TWO_31 then low - TWO_32 else low
  }

  /** Addition of an i32 that wraps, as it does in a release build. */
  function WrapI32(x: int): (y: i32)
    ensures (x - y) % TWO_32 == 0
    ensures -TWO_31 <= x < TWO_31 ==> y == x
  {
    (x + TWO_31) % TWO_32 - TWO_31
  }

  lemma AsI32OfSigned(x: i32)
    ensures AsI32(AsU64(x)) == x
  {
  }

  function Min(a: int, b: int): int {
    if a < b then a else b
  }

  function Max(a: int, b: int): int {
    if a < b then b else a
  }

  function SatSub(a: nat, b: nat): nat {
    if a < b then 0 else a - b
  }

  // ---- sequences

  lemma Assoc<T>(a: seq<T>, b: seq<T>, c: seq<T>)
    ensures (a + b) + c == a + (b + c)
  {
  }

  lemma AppendNothing<T>(s: seq<T>)
    ensures s + [] == s
  {
  }

  lemma HeadTail<T>(s: seq<T>)
    requires s != []
    ensures [s[0]] + s[1..] == s
  {
  }

  lemma LastAppended<T>(s: seq<T>)
    requires s != []
    ensures s[..|s| - 1] + [s[|s| - 1]] == s
  {
  }

  lemma Split<T>(a: seq<T>, b: seq<T>)
    ensures (a + b)[..|a|] == a && (a + b)[|a|..] == b
  {
  }

  lemma Extend<T>(s: seq<T>, n: nat, more: seq<T>)
    requires n <= |s|
    ensures (s + more)[..n] == s[..n] && (s + more)[n..] == s[n..] + more
  {
  }

  // ---- big-endian integers

  function Pow256(w: nat): nat {
    if w == 0 then 1 else 256 * Pow256(w - 1)
  }

  function BigEndian(w: nat, v: nat): (b: Bytes)
    ensures |b| == w
  {
    if w == 0 then [] else BigEndian(w - 1, v / 256) + [v % 256]
  }

  function FromBigEndian(b: Bytes): (v: nat) {
    if |b| == 0 then 0 else FromBigEndian(b[..|b| - 1]) * 256 + b[|b| - 1]
  }

  lemma {:induction false} BigEndianRoundTrip(w: nat, v: nat)
    requires v < Pow256(w)
    ensures FromBigEndian(BigEndian(w, v)) == v
  {
    if w == 0 {
    } else {
      BigEndianRoundTrip(w - 1, v / 256);
      assert BigEndian(w, v)[..w - 1] == BigEndian(w - 1, v / 256);
    }
  }

  lemma {:induction false} FromBigEndianInverse(b: Bytes)
    ensures FromBigEndian(b) < Pow256(|b|)
    ensures BigEndian(|b|, FromBigEndian(b)) == b
  {
    if |b| <= 0 {
    } else {
      FromBigEndianInverse(b[..|b| - 1]);
      assert b == b[..|b| - 1] + [b[|b| - 1]];
    }
  }

  /** The most significant byte comes first. */
  lemma {:induction false} HighByteFirst(b: Bytes)
    requires b != []
    ensures FromBigEndian(b) == b[0] * Pow256(|b| - 1) + FromBigEndian(b[1..])
    decreases |b|
  {
    var n := |b| - 1;
    if n == 0 {
      assert b[..0] == [] && FromBigEndian(b[..0]) == 0;
    } else {
      HighByteFirst(b[..n]);
      assert b[..n][1..] == b[1..][..n - 1];
      assert FromBigEndian(b[1..]) == FromBigEndian(b[1..][..n - 1]) * 256 + b[n];
      assert b[0] * Pow256(n - 1) * 256 == b[0] * (256 * Pow256(n - 1));
    }
  }

  lemma Pow256Values()
    ensures Pow256(2) == 0x1_0000 && Pow256(4) == TWO_32 && Pow256(8) == TWO_64
  {
    assert Pow256(3) == 0x100_0000;
    assert Pow256(6) == 0x1_0000_0000_0000;
  }

  // ---- decimal numerals

  function Digit(d: nat): (c: char)
    requires d < 10
    ensures '0' <= c <= '9'
  {
    '0' + d as char
  }

  function Decimal(n: nat): (s: string)
    ensures |s| > 0 && forall i :: 0 <= i < |s| ==> '0' <= s[i] <= '9'
  {
    if n < 10 then [Digit(n)] else Decimal(n / 10) + [Digit(n % 10)]
  }

  lemma {:induction false} DecimalInjective(a: nat, b: nat)
    requires Decimal(a) == Decimal(b)
    ensures a == b
    decreases a
  {
    var s := Decimal(a);
    if a >= 10 && b >= 10 {
      assert s[..|s| - 1] == Decimal(a / 10) && s[..|s| - 1] == Decimal(b / 10);
      DecimalInjective(a / 10, b / 10);
      assert s[|s| - 1] == Digit(a % 10) == Digit(b % 10);
    } else if a < 10 && b < 10 {
      assert s[0] == Digit(a) == Digit(b);
    }
  }
}
