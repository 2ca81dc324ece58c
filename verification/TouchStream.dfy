/** The ten readers and writers of variable-length integers, on a stream with a cursor. */
module TouchStream {
  import opened Bytes
  import opened VarInt

  type int16 = x: int | -0x8000 <= x < 0x8000
  type int32 = x: int | -0x8000_0000 <= x < 0x8000_0000
  type uint64 = x: int | 0 <= x < 0x1_0000_0000_0000_0000

  /** Conversion to a 16-bit signed integer. */
  function Wrapped16(x: int): int16
  {
    (x + 0x8000) % 0x1_0000 - 0x8000
  }

  /** The place of byte `n` of a number. */
  function Power(n: nat): (p: nat)
    ensures p > 0
  {
    if n == 0 then 1 else 256 * Power(n - 1)
  }

  lemma {:induction false} Products(a: int, b: int, d: nat)
    requires a < b
    ensures a * d + d <= b * d
    decreases b - a
  {
    assert (b - 1) * d + d == b * d;
    if a < b - 1 {
      Products(a, b - 1, d);
    }
  }

  lemma Division(m: nat, d: nat)
    requires d > 0
    ensures m / d * d <= m < m / d * d + d
  {
  }

  lemma Quotient(m: nat, d: nat, q: nat)
    requires d > 0 && q * d <= m < q * d + d
    ensures m / d == q
  {
    Division(m, d);
    if m / d < q {
      Products(m / d, q, d);
    } else if m / d > q {
      Products(q, m / d, d);
    }
  }

  lemma NextPlace(t: nat, q: nat, r: nat, p: nat)
    requires t == 256 * q + r && r < 256
    ensures q * (256 * p) <= t * p && t * p + p <= q * (256 * p) + 256 * p
  {
    assert t * p == (256 * q) * p + r * p;
    assert q * (256 * p) == (256 * q) * p;
    Products(r, 256, p);
  }

  lemma {:induction false} TopBounds(m: nat, n: nat)
    ensures Top(m, n) * Power(n) <= m < Top(m, n) * Power(n) + Power(n)
    decreases n
  {
    if n > 0 {
      TopBounds(m, n - 1);
      NextPlace(Top(m, n - 1), Top(m, n), Top(m, n - 1) % 256, Power(n - 1));
    }
  }

  /** Dropping bytes one by one is dividing by their place. */
  lemma TopIs(m: nat, n: nat, place: nat)
    requires place == Power(n)
    ensures Top(m, n) == m / place
  {
    TopBounds(m, n);
    Quotient(m, place, Top(m, n));
  }

  lemma SmallRemainder(x: nat, r: nat)
    requires x < r
    ensures x % r == x
  {
  }

  /** The bits for a lead byte with `n` more, when a number needs just as many. */
  lemma LeadBits(k: Kind, m: nat, n: nat, place: nat)
    requires n >= 1 && place == Power(n) && Scaled(Room(k), n - 1) <= m < Scaled(Room(k), n)
    ensures m / place % Room(k) == Top(m, n) && Fits(k, m, n) && !Fits(k, m, n - 1)
  {
    TopIs(m, n, place);
    FitsExactly(k, m, n);
    SmallRemainder(Top(m, n), Room(k));
  }

  /** Adding a byte at its place is reading one more. */
  lemma FoldPlace(top: nat, s: seq<byte>, at: nat, i: nat, place: nat)
    requires at + i < |s|
    ensures (256 * place) * Fold(top, s, at, i) + s[at + i] as int * place == place * Fold(top, s, at, i + 1)
  {
    var f, b := Fold(top, s, at, i), s[at + i] as int;
    assert Fold(top, s, at, i + 1) == 256 * f + b;
    assert place * (256 * f + b) == (256 * place) * f + b * place;
  }

  /** `was` and all but the last `r` of the `n` lowest bytes of `m`. */
  ghost function Prefix(was: seq<byte>, k: Kind, m: nat, n: nat, r: nat): seq<byte>
  {
    was + if r <= n then Low(k, m, n)[..n - r] else []
  }

  lemma PrefixNext(was: seq<byte>, k: Kind, m: nat, n: nat, r: nat)
    requires r < n
    ensures Prefix(was, k, m, n, r) == Prefix(was, k, m, n, r + 1) + [Digit(k, m, r)]
  {
    assert Low(k, m, n)[..n - r] == Low(k, m, n)[..n - r - 1] + [Digit(k, m, r)];
  }

  lemma PrefixNone(was: seq<byte>, k: Kind, m: nat, n: nat, r: nat)
    requires r >= n
    ensures Prefix(was, k, m, n, r) == was
  {
  }

  lemma PrefixAll(was: seq<byte>, k: Kind, m: nat, n: nat)
    ensures Prefix(was, k, m, n, 0) == was + Low(k, m, n)
  {
    assert Low(k, m, n)[..n] == Low(k, m, n);
  }

  class Stream {
    var bytes: seq<byte>
    var position: nat

    ghost predicate Valid()
      reads this
    {
      position <= |bytes|
    }

    function Remaining(): nat
      requires Valid()
      reads this
    {
      |bytes| - position
    }

    method ReadByte() returns (b: byte)
      requires Valid() && Remaining() >= 1
      modifies this`position
      ensures Valid() && b == bytes[old(position)] && position == old(position) + 1
    {
      b := bytes[position];
      position := position + 1;
    }

    method WriteByte(b: byte)
      modifies this`bytes
      ensures bytes == old(bytes) + [b]
    {
      bytes := bytes + [b];
    }

    /** The value and the new cursor are the reference decoder's. */
    ghost predicate Reads(k: Kind, at: nat, value: Option<int>)
      requires at <= |bytes|
      reads this
    {
      (value, position) == Decode(k, bytes, at)
    }

    /** rdpei_read_2byte_unsigned */
    method Read2ByteUnsigned() returns (value: Option<int>)
      requires Valid()
      modifies this`position
      ensures Valid() && Reads(U2, old(position), value)
    {
      if Remaining() < 1 {
        return None;
      }
      var b: int := ReadByte();
      if b >= 0x80 {
        if Remaining() < 1 {
          return None;
        }
        var v: int := b % 0x80 * 0x100;
        b := ReadByte();
        assert Fold(v / 0x100, bytes, old(position) + 1, 1) == v + b;
        return Some(v + b);
      }
      return Some(b % 0x80);
    }

    /** rdpei_read_2byte_signed */
    method Read2ByteSigned() returns (value: Option<int>)
      requires Valid()
      modifies this`position
      ensures Valid() && Reads(S2, old(position), value)
    {
      if Remaining() < 1 {
        return None;
      }
      var b: int := ReadByte();
      var negative := b / 0x40 % 2 == 1;
      var v: int := b % 0x40;
      if b >= 0x80 {
        if Remaining() < 1 {
          return None;
        }
        b := ReadByte();
        assert Fold(v, bytes, old(position) + 1, 1) == v * 0x100 + b;
        v := v * 0x100 + b;
      }
      if negative {
        v := v * -1;
      }
      return Some(v);
    }

    /** The next byte, shifted to its place and added. */
    method AddByte(value: nat, place: nat, ghost top: nat, ghost at: nat, ghost i: nat) returns (v: nat)
      requires Valid() && Remaining() >= 1 && position == at + i
      requires value == (256 * place) * Fold(top, bytes, at, i)
      modifies this`position
      ensures Valid() && position == at + i + 1
      ensures v == place * Fold(top, bytes, at, i + 1)
    {
      var b: int := ReadByte();
      v := value + b * place;
      FoldPlace(top, bytes, at, i, place);
    }

    /** The up to three bytes after a lead byte with the bits `top`, each added at its place. */
    method ReadTail(top: nat, count: nat) returns (value: nat)
      requires Valid() && Remaining() >= count && count <= 3
      modifies this`position
      ensures Valid() && position == old(position) + count
      ensures value == Fold(top, bytes, old(position), count)
    {
      ghost var at := position;
      match count
      case 0 => value := top;
      case 1 =>
        value := top * 0x100;
        value := AddByte(value, 1, top, at, 0);
      case 2 =>
        value := top * 0x1_0000;
        value := AddByte(value, 0x100, top, at, 0);
        value := AddByte(value, 1, top, at, 1);
      case 3 =>
        value := top * 0x100_0000;
        value := AddByte(value, 0x1_0000, top, at, 0);
        value := AddByte(value, 0x100, top, at, 1);
        value := AddByte(value, 1, top, at, 2);
    }

    /** The four or more bytes only an eight-byte number has. */
    method ReadLongTail(top: nat, count: nat) returns (value: nat)
      requires Valid() && Remaining() >= count && 4 <= count <= 7
      modifies this`position
      ensures Valid() && position == old(position) + count
      ensures value == Fold(top, bytes, old(position), count)
    {
      ghost var at := position;
      match count
      case 4 =>
        value := top * 0x1_0000_0000;
        value := AddByte(value, 0x100_0000, top, at, 0);
        value := AddByte(value, 0x1_0000, top, at, 1);
        value := AddByte(value, 0x100, top, at, 2);
        value := AddByte(value, 1, top, at, 3);
      case 5 =>
        value := top * 0x100_0000_0000;
        value := AddByte(value, 0x1_0000_0000, top, at, 0);
        value := AddByte(value, 0x100_0000, top, at, 1);
        value := AddByte(value, 0x1_0000, top, at, 2);
        value := AddByte(value, 0x100, top, at, 3);
        value := AddByte(value, 1, top, at, 4);
      case 6 =>
        value := top * 0x1_0000_0000_0000;
        value := AddByte(value, 0x100_0000_0000, top, at, 0);
        value := AddByte(value, 0x1_0000_0000, top, at, 1);
        value := AddByte(value, 0x100_0000, top, at, 2);
        value := AddByte(value, 0x1_0000, top, at, 3);
        value := AddByte(value, 0x100, top, at, 4);
        value := AddByte(value, 1, top, at, 5);
      case 7 =>
        value := top * 0x100_0000_0000_0000;
        value := AddByte(value, 0x1_0000_0000_0000, top, at, 0);
        value := AddByte(value, 0x100_0000_0000, top, at, 1);
        value := AddByte(value, 0x1_0000_0000, top, at, 2);
        value := AddByte(value, 0x100_0000, top, at, 3);
        value := AddByte(value, 0x1_0000, top, at, 4);
        value := AddByte(value, 0x100, top, at, 5);
        value := AddByte(value, 1, top, at, 6);
    }

    /** The next of the `n` lowest bytes. */
    method WriteNext(ghost was: seq<byte>, ghost k: Kind, ghost m: nat, ghost n: nat, ghost r: nat, b: byte)
      requires r < n && b == Digit(k, m, r) && bytes == Prefix(was, k, m, n, r + 1)
      modifies this`bytes
      ensures bytes == Prefix(was, k, m, n, r)
    {
      WriteByte(b);
      PrefixNext(was, k, m, n, r);
    }

    /** The bytes from byte 3 up, which only eight-byte numbers have below their lead byte:
        five bits of each. */
    method WriteHigh(ghost k: Kind, m: nat, n: nat)
      requires n <= if k.U8? then 7 else 3
      modifies this`bytes
      ensures bytes == Prefix(old(bytes), k, m, n, 3)
    {
      ghost var was := bytes;
      PrefixNone(was, k, m, n, 7);
      if n >= 7 {
        TopIs(m, 6, 0x1_0000_0000_0000);
        WriteNext(was, k, m, n, 6, m / 0x1_0000_0000_0000 % 0x20);
      } else {
        PrefixNone(was, k, m, n, 6);
      }
      if n >= 6 {
        TopIs(m, 5, 0x100_0000_0000);
        WriteNext(was, k, m, n, 5, m / 0x100_0000_0000 % 0x20);
      } else {
        PrefixNone(was, k, m, n, 5);
      }
      if n >= 5 {
        TopIs(m, 4, 0x1_0000_0000);
        WriteNext(was, k, m, n, 4, m / 0x1_0000_0000 % 0x20);
      } else {
        PrefixNone(was, k, m, n, 4);
      }
      if n >= 4 {
        TopIs(m, 3, 0x100_0000);
        WriteNext(was, k, m, n, 3, m / 0x100_0000 % 0x20);
      } else {
        PrefixNone(was, k, m, n, 3);
      }
    }

    /** The further bytes the four- and eight-byte writers write, each cut out of the number. */
    method WriteTail(ghost k: Kind, m: nat, n: nat)
      requires n <= if k.U8? then 7 else 3
      modifies this`bytes
      ensures bytes == old(bytes) + Low(k, m, n)
    {
      ghost var was := bytes;
      WriteHigh(k, m, n);
      if n >= 3 {
        TopIs(m, 2, 0x1_0000);
        WriteNext(was, k, m, n, 2, m / 0x1_0000 % 0x100);
      } else {
        PrefixNone(was, k, m, n, 2);
      }
      if n >= 2 {
        TopIs(m, 1, 0x100);
        WriteNext(was, k, m, n, 1, m / 0x100 % 0x100);
      } else {
        PrefixNone(was, k, m, n, 1);
      }
      if n >= 1 {
        WriteNext(was, k, m, n, 0, m % 0x100);
      } else {
        PrefixNone(was, k, m, n, 0);
      }
      PrefixAll(was, k, m, n);
    }

    /** rdpei_read_4byte_unsigned */
    method Read4ByteUnsigned() returns (value: Option<int>)
      requires Valid()
      modifies this`position
      ensures Valid() && Reads(U4, old(position), value)
    {
      if Remaining() < 1 {
        return None;
      }
      var b: int := ReadByte();
      var count := b / 0x40;
      if Remaining() < count {
        return None;
      }
      var v: int := ReadTail(b % 0x40, count);
      return Some(v);
    }

    /** rdpei_read_4byte_signed */
    method Read4ByteSigned() returns (value: Option<int>)
      requires Valid()
      modifies this`position
      ensures Valid() && Reads(S4, old(position), value)
    {
      if Remaining() < 1 {
        return None;
      }
      var b: int := ReadByte();
      var count, negative := b / 0x40, b / 0x20 % 2 == 1;
      if Remaining() < count {
        return None;
      }
      var v: int := ReadTail(b % 0x20, count);
      if negative {
        v := v * -1;
      }
      return Some(v);
    }

    /** rdpei_read_8byte_unsigned */
    method Read8ByteUnsigned() returns (value: Option<int>)
      requires Valid()
      modifies this`position
      ensures Valid() && Reads(U8, old(position), value)
    {
      if Remaining() < 1 {
        return None;
      }
      var b: int := ReadByte();
      var count := b / 0x20;
      if Remaining() < count {
        return None;
      }
      var v: int;
      if count <= 3 {
        v := ReadTail(b % 0x20, count);
      } else {
        v := ReadLongTail(b % 0x20, count);
      }
      return Some(v);
    }

    /** A lead byte with the top of `m` and the sign of `v`, then the rest of `m`. */
    method Emit(ghost k: Kind, ghost v: int, m: nat, n: nat, top: nat, sign: nat, count: nat)
      requires m == (if v < 0 then -v else v) && (v < 0 ==> Signed(k))
      requires n <= MaxExtra(k) && Fits(k, m, n) && (n > 0 ==> !Fits(k, m, n - 1))
      requires top == Top(m, n) && sign == SignField(k, v < 0) && count == CountField(k, n)
      modifies this`bytes
      ensures Encode(k, v).Some? && bytes == old(bytes) + Encode(k, v).value
    {
      LeastFit(k, m, n);
      ghost var lead := Lead(k, n, v < 0, top);
      WriteByte(top + sign + count);
      WriteTail(k, m, n);
      assert old(bytes) + [lead] + Low(k, m, n) == old(bytes) + ([lead] + Low(k, m, n));
    }

    /** rdpei_write_2byte_unsigned */
    method Write2ByteUnsigned(value: uint16) returns (ok: bool)
      modifies this`bytes
      ensures ok <==> Encode(U2, value).Some?
      ensures bytes == old(bytes) + if ok then Encode(U2, value).value else []
    {
      EncodesIff(U2, value);
      if value > 0x7FFF {
        return false;
      }
      TopIs(value, 1, 0x100);
      if value >= 0x7F {
        Emit(U2, value, value, 1, value / 0x100 % 0x80, 0, 0x80);
      } else {
        Emit(U2, value, value, 0, value % 0x80, 0, 0);
      }
      return true;
    }

    /** rdpei_write_2byte_signed after the sign is taken off */
    method WriteShortMagnitude(ghost value: int, m: nat, sign: nat) returns (ok: bool)
      requires m == (if value < 0 then -value else value) && sign == SignField(S2, value < 0)
      modifies this`bytes
      ensures ok <==> Encode(S2, value).Some?
      ensures bytes == old(bytes) + if ok then Encode(S2, value).value else []
    {
      if m > 0x3FFF {
        EncodesIff(S2, value);
        return false;
      }
      TopIs(m, 1, 0x100);
      if m >= 0x3F {
        Emit(S2, value, m, 1, m / 0x100 % 0x40, sign, 0x80);
      } else {
        Emit(S2, value, m, 0, m % 0x40, sign, 0);
      }
      return true;
    }

    /** rdpei_write_2byte_signed. The negation of the least 16-bit number is itself, which
        passes every comparison and is written as a minus sign and no bits. */
    method Write2ByteSigned(value: int16) returns (ok: bool)
      modifies this`bytes
      ensures ok <==> value == -0x8000 || Encode(S2, value).Some?
      ensures bytes == old(bytes) + if value == -0x8000 then [0x40] else if ok then Encode(S2, value).value else []
    {
      var v: int, sign := value, 0;
      if v < 0 {
        sign := 0x40;
        v := Wrapped16(v * -1);
      }
      if v < 0 {
        WriteByte(v % 0x40 + sign);
        return true;
      }
      ok := WriteShortMagnitude(value, v, sign);
    }

    /** rdpei_write_4byte_unsigned */
    method Write4ByteUnsigned(value: uint32) returns (ok: bool)
      modifies this`bytes
      ensures ok <==> Encode(U4, value).Some?
      ensures bytes == old(bytes) + if ok then Encode(U4, value).value else []
    {
      if value <= 0x3F {
        Emit(U4, value, value, 0, value, 0, 0);
      } else if value <= 0x3FFF {
        LeadBits(U4, value, 1, 0x100);
        Emit(U4, value, value, 1, value / 0x100 % 0x40, 0, 0x40);
      } else if value <= 0x3F_FFFF {
        LeadBits(U4, value, 2, 0x1_0000);
        Emit(U4, value, value, 2, value / 0x1_0000 % 0x40, 0, 0x80);
      } else if value <= 0x3FFF_FFFF {
        LeadBits(U4, value, 3, 0x100_0000);
        Emit(U4, value, value, 3, value / 0x100_0000 % 0x40, 0, 0xC0);
      } else {
        EncodesIff(U4, value);
        return false;
      }
      return true;
    }

    /** rdpei_write_4byte_signed after the sign is taken off */
    method WriteMagnitude(ghost value: int, m: nat, sign: nat) returns (ok: bool)
      requires m == (if value < 0 then -value else value) && sign == SignField(S4, value < 0)
      modifies this`bytes
      ensures ok <==> Encode(S4, value).Some?
      ensures bytes == old(bytes) + if ok then Encode(S4, value).value else []
    {
      if m <= 0x1F {
        Emit(S4, value, m, 0, m % 0x20, sign, 0);
      } else if m <= 0x1FFF {
        LeadBits(S4, m, 1, 0x100);
        Emit(S4, value, m, 1, m / 0x100 % 0x20, sign, 0x40);
      } else if m <= 0x1F_FFFF {
        LeadBits(S4, m, 2, 0x1_0000);
        Emit(S4, value, m, 2, m / 0x1_0000 % 0x20, sign, 0x80);
      } else if m <= 0x1FFF_FFFF {
        LeadBits(S4, m, 3, 0x100_0000);
        Emit(S4, value, m, 3, m / 0x100_0000 % 0x20, sign, 0xC0);
      } else {
        EncodesIff(S4, value);
        return false;
      }
      return true;
    }

    /** rdpei_write_4byte_signed, whose negation is not defined on the least 32-bit number. */
    method Write4ByteSigned(value: int32) returns (ok: bool)
      requires value != -0x8000_0000
      modifies this`bytes
      ensures ok <==> Encode(S4, value).Some?
      ensures bytes == old(bytes) + if ok then Encode(S4, value).value else []
    {
      if value < 0 {
        ok := WriteMagnitude(value, value * -1, 0x20);
      } else {
        ok := WriteMagnitude(value, value, 0);
      }
    }

    /** The branches of rdpei_write_8byte_unsigned with more than three further bytes. */
    method WriteLong(value: uint64) returns (ok: bool)
      requires value > 0x1FFF_FFFF
      modifies this`bytes
      ensures ok <==> Encode(U8, value).Some?
      ensures bytes == old(bytes) + if ok then Encode(U8, value).value else []
    {
      if value <= 0x1F_FFFF_FFFF {
        LeadBits(U8, value, 4, 0x1_0000_0000);
        Emit(U8, value, value, 4, value / 0x1_0000_0000 % 0x20, 0, 0x80);
      } else if value <= 0x1FFF_FFFF_FFFF {
        LeadBits(U8, value, 5, 0x100_0000_0000);
        Emit(U8, value, value, 5, value / 0x100_0000_0000 % 0x20, 0, 0xA0);
      } else if value <= 0x1F_FFFF_FFFF_FFFF {
        LeadBits(U8, value, 6, 0x1_0000_0000_0000);
        Emit(U8, value, value, 6, value / 0x1_0000_0000_0000 % 0x20, 0, 0xC0);
      } else if value <= 0x1FFF_FFFF_FFFF_FFFF {
        LeadBits(U8, value, 7, 0x100_0000_0000_0000);
        Emit(U8, value, value, 7, value / 0x100_0000_0000_0000 % 0x20, 0, 0xE0);
      } else {
        EncodesIff(U8, value);
        return false;
      }
      return true;
    }

    /** rdpei_write_8byte_unsigned */
    method Write8ByteUnsigned(value: uint64) returns (ok: bool)
      modifies this`bytes
      ensures ok <==> Encode(U8, value).Some?
      ensures bytes == old(bytes) + if ok then Encode(U8, value).value else []
    {
      if value <= 0x1F {
        Emit(U8, value, value, 0, value % 0x20, 0, 0);
      } else if value <= 0x1FFF {
        LeadBits(U8, value, 1, 0x100);
        Emit(U8, value, value, 1, value / 0x100 % 0x20, 0, 0x20);
      } else if value <= 0x1F_FFFF {
        LeadBits(U8, value, 2, 0x1_0000);
        Emit(U8, value, value, 2, value / 0x1_0000 % 0x20, 0, 0x40);
      } else if value <= 0x1FFF_FFFF {
        LeadBits(U8, value, 3, 0x100_0000);
        Emit(U8, value, value, 3, value / 0x100_0000 % 0x20, 0, 0x60);
      } else {
        ok := WriteLong(value);
        return;
      }
      return true;
    }
  }
}
