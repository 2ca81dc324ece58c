/** Machine integers as bounded mathematical integers, optional values, and the
    little-endian fields every wire format of this project is built from. */
module Bytes {

  type byte = x: int | 0 <= x < 0x100
  type uint16 = x: int | 0 <= x < 0x1_0000
  type uint32 = x: int | 0 <= x < 0x1_0000_0000

  datatype Option<+T> = None | Some(value: T)

  /** The bytes Stream_Write_UINT16 appends. */
  function Le16(v: uint16): (s: seq<byte>)
    ensures |s| == 2
  {
    [v % 0x100, v / 0x100]
  }

  function FromLe16(s: seq<byte>, at: nat): uint16
    requires at + 2 <= |s|
  {
    var lo: int, hi: int := s[at], s[at + 1];
    lo + 0x100 * hi
  }

  /** The bytes Stream_Write_UINT32 appends. */
  function Le32(v: uint32): (s: seq<byte>)
    ensures |s| == 4
  {
    [v % 0x100, v / 0x100 % 0x100, v / 0x100 / 0x100 % 0x100, v / 0x100 / 0x100 / 0x100]
  }

  function FromLe32(s: seq<byte>, at: nat): uint32
    requires at + 4 <= |s|
  {
    var b0: int, b1: int, b2: int, b3: int := s[at], s[at + 1], s[at + 2], s[at + 3];
    b0 + 0x100 * b1 + 0x1_0000 * b2 + 0x100_0000 * b3
  }

  function Zeros(n: nat): (s: seq<byte>)
    ensures |s| == n
    ensures forall i | 0 <= i < n :: s[i] == 0
  {
    seq(n, _ => 0)
  }

  /** A field read back where it was written. */
  lemma Le32At(s: seq<byte>, at: nat, v: uint32)
    requires at + 4 <= |s|
    requires s[at..at + 4] == Le32(v)
    ensures FromLe32(s, at) == v
  {
    var f := s[at..at + 4];
    assert s[at] == f[0] && s[at + 1] == f[1] && s[at + 2] == f[2] && s[at + 3] == f[3];
  }

  lemma Le32Inside(a: seq<byte>, v: uint32, rest: seq<byte>)
    ensures FromLe32(a + Le32(v) + rest, |a|) == v
  {
    var s, f := a + Le32(v) + rest, Le32(v);
    assert s[|a|] == f[0] && s[|a| + 1] == f[1] && s[|a| + 2] == f[2] && s[|a| + 3] == f[3];
  }

  /** Regrouping, stated once so that proofs need not search for it. */
  lemma PullOut(a: seq<byte>, x: seq<byte>, y: seq<byte>, z: seq<byte>, rest: seq<byte>)
    ensures a + (x + y + z + rest) == a + x + (y + z + rest)
  {
  }

  lemma Associate<T>(a: seq<T>, b: seq<T>, c: seq<T>)
    ensures a + (b + c) == a + b + c
  {
  }

  /** strnlen: the index of the first zero byte, or the length when there is none. */
  function ZeroIndex(s: seq<byte>): (n: nat)
    ensures n <= |s|
    ensures n < |s| ==> s[n] == 0
    ensures forall i | 0 <= i < n :: s[i] != 0
  {
    if s == [] || s[0] == 0 then 0 else 1 + ZeroIndex(s[1..])
  }

  /** The 16-bit units from `at` on, up to a zero unit and at most `n`: what _wcsnlen counts. */
  function TakeUnits(s: seq<byte>, at: nat, n: nat): (u: seq<uint16>)
    requires at + 2 * n <= |s|
    ensures |u| <= n
    decreases n
  {
    if n == 0 || FromLe16(s, at) == 0 then [] else [FromLe16(s, at)] + TakeUnits(s, at + 2, n - 1)
  }

  /** The units of a terminated string at `at` and the offset behind its terminator. */
  function ReadUnits(s: seq<byte>, at: nat): (r: Option<(seq<uint16>, nat)>)
    requires at <= |s|
    ensures r.Some? ==> at + 2 <= r.value.1 <= |s|
    decreases |s| - at
  {
    if at + 2 > |s| then None
    else if FromLe16(s, at) == 0 then Some(([], at + 2))
    else
      match ReadUnits(s, at + 2)
      case None => None
      case Some((u, end)) => Some(([FromLe16(s, at)] + u, end))
  }

  lemma {:induction false} ReadUnitsShift(a: seq<byte>, b: seq<byte>, at: nat)
    requires at <= |b|
    ensures ReadUnits(a + b, |a| + at)
         == match ReadUnits(b, at) { case None => None case Some((u, end)) => Some((u, |a| + end)) }
    decreases |b| - at
  {
    if at + 2 <= |b| {
      assert FromLe16(a + b, |a| + at) == FromLe16(b, at);
      ReadUnitsShift(a, b, at + 2);
    }
  }

  function Concat(chunks: seq<seq<byte>>): seq<byte>
  {
    if chunks == [] then [] else chunks[0] + Concat(chunks[1..])
  }

  function Min(a: int, b: int): int
  {
    if a < b then a else b
  }
}
