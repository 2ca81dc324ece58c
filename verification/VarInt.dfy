/** The variable-length integers of sections 2.2.2.1 to 2.2.2.5 of MS-RDPEI: a lead byte
    with a count of further bytes, a sign for the signed kinds and the highest bits, then
    the further bytes, most significant first. */
module VarInt {
  import opened Bytes

  datatype Kind = U2 | S2 | U4 | S4 | U8

  predicate Signed(k: Kind) { k.S2? || k.S4? }

  /** How many values the bits of a lead byte have that belong to the number. */
  function Room(k: Kind): (r: nat)
    ensures r > 0
  {
    match k case U2 => 128 case S2 => 64 case U4 => 64 case S4 => 32 case U8 => 32
  }

  function MaxExtra(k: Kind): nat
  {
    match k case U2 => 1 case S2 => 1 case U4 => 3 case S4 => 3 case U8 => 7
  }

  /** The largest magnitude that can be written. */
  function Max(k: Kind): int
  {
    match k
    case U2 => 0x7FFF
    case S2 => 0x3FFF
    case U4 => 0x3FFF_FFFF
    case S4 => 0x1FFF_FFFF
    case U8 => 0x1FFF_FFFF_FFFF_FFFF
  }

  function Negated(negative: bool, m: int): int
  {
    if negative then -m else m
  }

  // ----- the reference decoder -----

  /** The number whose highest bits are `acc`, then `n` bytes of `s` from `p`. */
  function Fold(acc: nat, s: seq<byte>, p: nat, n: nat): nat
    requires p + n <= |s|
  {
    if n == 0 then acc else 256 * Fold(acc, s, p, n - 1) + s[p + n - 1]
  }

  // The fields of a lead byte: the count of further bytes, the sign, the bits of the number.

  function Count(k: Kind, lead: byte): (n: nat)
    ensures n <= MaxExtra(k)
  {
    match k
    case U2 | S2 => lead / 128
    case U4 | S4 => lead / 64
    case U8 => lead / 32
  }

  predicate Minus(k: Kind, lead: byte)
  {
    match k
    case S2 => lead / 64 % 2 == 1
    case S4 => lead / 32 % 2 == 1
    case U2 | U4 | U8 => false
  }

  function Bits(k: Kind, lead: byte): nat
  {
    match k
    case U2 => lead % 128
    case S2 | U4 => lead % 64
    case S4 | U8 => lead % 32
  }

  /** The value at `p` and the position after it. Of a number cut short the lead byte is
      consumed. */
  function Decode(k: Kind, s: seq<byte>, p: nat): (r: (Option<int>, nat))
    requires p <= |s|
    ensures p <= r.1 <= |s|
  {
    if p == |s| then (None, p) else
    var lead := s[p];
    var n := Count(k, lead);
    if |s| - p - 1 < n then (None, p + 1)
    else (Some(Negated(Minus(k, lead), Fold(Bits(k, lead), s, p + 1, n))), p + 1 + n)
  }

  // ----- the reference encoder -----

  /** `m` without its `n` lowest bytes. */
  function Top(m: nat, n: nat): nat
  {
    if n == 0 then m else Top(m, n - 1) / 256
  }

  /** The values a byte is written with: the eight-byte writer keeps five bits of byte 3
      and of those above it. */
  function Modulus(k: Kind, i: nat): (r: nat)
    ensures r == 256 || r == 32
  {
    if k.U8? && i >= 3 then 32 else 256
  }

  function Digit(k: Kind, m: nat, i: nat): byte
  {
    Top(m, i) % Modulus(k, i)
  }

  /** The `n` lowest bytes of `m` as written, most significant first. */
  function Low(k: Kind, m: nat, n: nat): (s: seq<byte>)
    ensures |s| == n
  {
    seq(n, i requires 0 <= i < n => Digit(k, m, n - 1 - i))
  }

  function CountField(k: Kind, n: nat): nat
  {
    match k
    case U2 | S2 => 128 * n
    case U4 | S4 => 64 * n
    case U8 => 32 * n
  }

  function SignField(k: Kind, negative: bool): nat
  {
    if !negative then 0 else if k.S2? then 64 else 32
  }

  function Lead(k: Kind, n: nat, negative: bool, top: nat): byte
    requires n <= MaxExtra(k) && top < Room(k) && (negative ==> Signed(k))
  {
    CountField(k, n) + SignField(k, negative) + top
  }

  /** `m` in a lead byte and `n` more. */
  function Encoded(k: Kind, n: nat, negative: bool, m: nat): (s: seq<byte>)
    requires n <= MaxExtra(k) && Top(m, n) < Room(k) && (negative ==> Signed(k))
    ensures |s| == n + 1
  {
    [Lead(k, n, negative, Top(m, n))] + Low(k, m, n)
  }

  /** Whether `m` can be written with `n` bytes after the lead byte; the two-byte kinds do
      not write the largest number that would fit one byte that way. */
  predicate Fits(k: Kind, m: nat, n: nat)
  {
    Top(m, n) < Room(k) - if n == 0 && (k.U2? || k.S2?) then 1 else 0
  }

  /** The least number of further bytes that fits, from `n` on. */
  function Extra(k: Kind, m: nat, n: nat): (r: Option<nat>)
    requires n <= MaxExtra(k)
    ensures r.Some? ==> n <= r.value <= MaxExtra(k) && Fits(k, m, r.value)
    decreases MaxExtra(k) - n
  {
    if Fits(k, m, n) then Some(n) else if n == MaxExtra(k) then None else Extra(k, m, n + 1)
  }

  function Encode(k: Kind, v: int): (r: Option<seq<byte>>)
    requires v < 0 ==> Signed(k)
  {
    var m: nat := if v < 0 then -v else v;
    match Extra(k, m, 0)
    case None => None
    case Some(n) => Some(Encoded(k, n, v < 0, m))
  }

  // ----- what is written is read back -----

  /** `s` has `t` from `p` on. */
  ghost predicate Holds(s: seq<byte>, p: nat, t: seq<byte>)
  {
    p + |t| <= |s| && forall i | 0 <= i < |t| :: s[p + i] == t[i]
  }

  /** `m`, whose lowest byte is byte `i`, with the bits dropped that its bytes lose. */
  function Kept(k: Kind, m: nat, i: nat): nat
  {
    if m == 0 then 0 else m % Modulus(k, i) + 256 * Kept(k, m / 256, i + 1)
  }

  lemma {:induction false} FoldLow(k: Kind, m: nat, n: nat, j: nat, s: seq<byte>, p: nat)
    requires j <= n && Top(m, n) < Room(k)
    requires Holds(s, p, Low(k, m, n))
    ensures Fold(Top(m, n), s, p, j) == Kept(k, Top(m, n - j), n - j)
    decreases j
  {
    if j == 0 {
      assert Kept(k, Top(m, n) / 256, n + 1) == 0;
    } else {
      FoldLow(k, m, n, j - 1, s, p);
      assert s[p + j - 1] == Low(k, m, n)[j - 1] == Digit(k, m, n - j);
      assert Top(m, n - j + 1) == Top(m, n - j) / 256;
    }
  }

  lemma TwoByteLead(n: nat, sign: nat, top: nat)
    requires sign <= 1 && top < 64
    ensures var lead := 128 * n + 64 * sign + top;
            lead / 128 == n && lead / 64 == 2 * n + sign && lead % 64 == top
  {
  }

  lemma FourByteLead(n: nat, sign: nat, top: nat)
    requires sign <= 1 && top < 32
    ensures var lead := 64 * n + 32 * sign + top;
            lead / 64 == n && lead / 32 == 2 * n + sign && lead % 32 == top
  {
  }

  lemma LeadReads(k: Kind, n: nat, negative: bool, top: nat)
    requires n <= MaxExtra(k) && top < Room(k) && (negative ==> Signed(k))
    ensures var lead := Lead(k, n, negative, top);
            Count(k, lead) == n && Bits(k, lead) == top && (Minus(k, lead) <==> negative)
  {
    match k
    case S2 => TwoByteLead(n, if negative then 1 else 0, top);
    case S4 => FourByteLead(n, if negative then 1 else 0, top);
    case U2 | U4 | U8 =>
  }

  lemma EncodedParts(k: Kind, n: nat, negative: bool, m: nat, s: seq<byte>, p: nat)
    requires n <= MaxExtra(k) && Top(m, n) < Room(k) && (negative ==> Signed(k))
    requires Holds(s, p, Encoded(k, n, negative, m))
    ensures s[p] == Lead(k, n, negative, Top(m, n)) && Holds(s, p + 1, Low(k, m, n))
  {
    var t := Encoded(k, n, negative, m);
    assert s[p] == t[0];
    assert forall i | 0 <= i < n :: s[p + 1 + i] == t[1 + i] == Low(k, m, n)[i];
  }

  lemma DecodeParts(k: Kind, s: seq<byte>, p: nat, n: nat, negative: bool, top: nat)
    requires p + 1 + n <= |s| && Count(k, s[p]) == n && Bits(k, s[p]) == top && (Minus(k, s[p]) <==> negative)
    ensures Decode(k, s, p) == (Some(Negated(negative, Fold(top, s, p + 1, n))), p + 1 + n)
  {
  }

  /** A number written with any count of bytes it fits is read back, but for the bits its
      bytes lose, wherever it stands and whatever follows. */
  lemma DecodeEncoded(k: Kind, n: nat, negative: bool, m: nat, s: seq<byte>, p: nat)
    requires n <= MaxExtra(k) && Top(m, n) < Room(k) && (negative ==> Signed(k))
    requires Holds(s, p, Encoded(k, n, negative, m))
    ensures Decode(k, s, p) == (Some(Negated(negative, Kept(k, m, 0))), p + 1 + n)
  {
    EncodedParts(k, n, negative, m, s, p);
    LeadReads(k, n, negative, Top(m, n));
    DecodeParts(k, s, p, n, negative, Top(m, n));
    FoldLow(k, m, n, n, s, p + 1);
  }

  // ----- which bits are lost -----

  /** No byte from byte `i` on has a bit that is dropped. */
  ghost predicate AllKept(k: Kind, m: nat, i: nat)
  {
    forall j: nat | i <= j :: Top(m, j) % 256 < Modulus(k, j)
  }

  lemma {:induction false} TopZero(m: nat, i: nat, j: nat)
    requires i <= j && Top(m, i) == 0
    ensures Top(m, j) == 0
    decreases j
  {
    if i < j {
      TopZero(m, i, j - 1);
    }
  }

  lemma {:induction false} KeptIff(k: Kind, m: nat, i: nat)
    ensures Kept(k, Top(m, i), i) <= Top(m, i)
    ensures Kept(k, Top(m, i), i) == Top(m, i) <==> AllKept(k, m, i)
    decreases Top(m, i)
  {
    if Top(m, i) == 0 {
      forall j: nat | i <= j
        ensures Top(m, j) == 0
      {
        TopZero(m, i, j);
      }
    } else {
      assert Top(m, i + 1) == Top(m, i) / 256;
      KeptIff(k, m, i + 1);
    }
  }

  /** `b` followed by `n` zero bytes. */
  function Scaled(b: nat, n: nat): nat
    decreases n
  {
    if n == 0 then b else Scaled(256 * b, n - 1)
  }

  lemma {:induction false} TopBelow(m: nat, n: nat, b: nat)
    ensures Top(m, n) < b <==> m < Scaled(b, n)
    decreases n
  {
    if n > 0 {
      assert Top(m, n) < b <==> Top(m, n - 1) < 256 * b;
      TopBelow(m, n - 1, 256 * b);
    }
  }

  /** Nothing but an eight-byte number loses bits, and none up to 0x1FFFFFFF does. */
  lemma KeptWhole(k: Kind, m: nat)
    requires !k.U8? || m <= 0x1FFF_FFFF
    ensures AllKept(k, m, 0)
  {
    if k.U8? {
      TopBelow(m, 3, 32);
      TopBelow(m, 4, 1);
      forall i: nat | 3 < i
        ensures Top(m, i) == 0
      {
        TopZero(m, 4, i);
      }
    }
  }

  // ----- which numbers are written -----

  lemma {:induction false} FitsMore(k: Kind, m: nat, n: nat, more: nat)
    requires n <= more && Fits(k, m, n)
    ensures Fits(k, m, more)
    decreases more
  {
    if n < more {
      FitsMore(k, m, n, more - 1);
    }
  }

  lemma {:induction false} ExtraIs(k: Kind, m: nat, i: nat, n: nat)
    requires i <= n <= MaxExtra(k) && Fits(k, m, n) && forall j | i <= j < n :: !Fits(k, m, j)
    ensures Extra(k, m, i) == Some(n)
    decreases n - i
  {
    if i < n {
      ExtraIs(k, m, i + 1, n);
    }
  }

  lemma FitsExactly(k: Kind, m: nat, n: nat)
    requires 1 <= n && Scaled(Room(k), n - 1) <= m < Scaled(Room(k), n)
    ensures Fits(k, m, n) && !Fits(k, m, n - 1)
  {
    TopBelow(m, n, Room(k));
    TopBelow(m, n - 1, Room(k));
  }

  lemma LeastFit(k: Kind, m: nat, n: nat)
    requires n <= MaxExtra(k) && Fits(k, m, n) && (n > 0 ==> !Fits(k, m, n - 1))
    ensures Extra(k, m, 0) == Some(n)
  {
    forall j | 0 <= j < n
      ensures !Fits(k, m, j)
    {
      if Fits(k, m, j) {
        FitsMore(k, m, j, n - 1);
      }
    }
    ExtraIs(k, m, 0, n);
  }

  lemma {:induction false} ExtraNone(k: Kind, m: nat, i: nat)
    requires i <= MaxExtra(k) && !Fits(k, m, MaxExtra(k))
    ensures Extra(k, m, i) == None
    decreases MaxExtra(k) - i
  {
    if Fits(k, m, i) {
      FitsMore(k, m, i, MaxExtra(k));
    }
    if i < MaxExtra(k) {
      ExtraNone(k, m, i + 1);
    }
  }

  lemma ScaledIs(k: Kind)
    ensures Scaled(Room(k), MaxExtra(k)) == Max(k) + 1
  {
    match k
    case U2 | S2 =>
    case U4 => assert Scaled(64, 3) == 0x4000_0000;
    case S4 => assert Scaled(32, 3) == 0x2000_0000;
    case U8 => assert Scaled(32, 7) == 0x2000_0000_0000_0000;
  }

  lemma {:induction false} FittingIsFound(k: Kind, m: nat, i: nat)
    requires i <= MaxExtra(k) && Fits(k, m, MaxExtra(k))
    ensures Extra(k, m, i).Some?
    decreases MaxExtra(k) - i
  {
    if i < MaxExtra(k) {
      FittingIsFound(k, m, i + 1);
    }
  }

  /** A number is written exactly when its magnitude is at most the kind's largest. */
  lemma EncodesIff(k: Kind, v: int)
    requires v < 0 ==> Signed(k)
    ensures Encode(k, v).Some? <==> -Max(k) <= v <= Max(k)
  {
    var m: nat := if v < 0 then -v else v;
    TopBelow(m, MaxExtra(k), Room(k));
    ScaledIs(k);
    if Extra(k, m, 0).Some? {
      FitsMore(k, m, Extra(k, m, 0).value, MaxExtra(k));
    } else if Fits(k, m, MaxExtra(k)) {
      FittingIsFound(k, m, 0);
    } else {
      ExtraNone(k, m, 0);
    }
  }

  /** What reading a number back gives. */
  function Reread(k: Kind, v: int): int
  {
    if v < 0 then v else Kept(k, v, 0)
  }

  lemma ReadsBack(k: Kind, v: int, s: seq<byte>, p: nat)
    requires (v < 0 ==> Signed(k)) && Encode(k, v).Some? && Holds(s, p, Encode(k, v).value)
    ensures Decode(k, s, p) == (Some(Reread(k, v)), p + |Encode(k, v).value|)
  {
    var m: nat := if v < 0 then -v else v;
    DecodeEncoded(k, Extra(k, m, 0).value, v < 0, m, s, p);
    if v < 0 {
      KeptIff(k, m, 0);
      KeptWhole(k, m);
    }
  }

  // ----- sequences of numbers -----

  datatype Number = Number(kind: Kind, value: int)

  predicate Writable(x: Number)
  {
    (if Signed(x.kind) then -Max(x.kind) else 0) <= x.value <= Max(x.kind)
  }

  predicate AllWritable(xs: seq<Number>)
  {
    forall i | 0 <= i < |xs| :: Writable(xs[i])
  }

  function WriteOne(x: Number): seq<byte>
    requires Writable(x)
  {
    EncodesIff(x.kind, x.value);
    Encode(x.kind, x.value).value
  }

  function WriteAll(xs: seq<Number>): seq<byte>
    requires AllWritable(xs)
  {
    if xs == [] then [] else WriteOne(xs[0]) + WriteAll(xs[1..])
  }

  /** Reading numbers of the kinds of `xs` from `p`, to the first that fails. */
  function ReadAll(xs: seq<Number>, s: seq<byte>, p: nat): (seq<int>, nat)
    requires p <= |s|
    decreases |xs|
  {
    if xs == [] then ([], p) else
    var (v, q) := Decode(xs[0].kind, s, p);
    if v.None? then ([], q) else
    var (vs, end) := ReadAll(xs[1..], s, q);
    ([v.value] + vs, end)
  }

  function Values(xs: seq<Number>): seq<int>
  {
    seq(|xs|, i requires 0 <= i < |xs| => xs[i].value)
  }

  function RereadAll(xs: seq<Number>): seq<int>
  {
    seq(|xs|, i requires 0 <= i < |xs| => Reread(xs[i].kind, xs[i].value))
  }

  lemma FirstReadsBack(xs: seq<Number>, s: seq<byte>, p: nat) returns (q: nat)
    requires AllWritable(xs) && xs != [] && p <= |s| && s[p..] == WriteAll(xs)
    ensures p <= q <= |s| && s[q..] == WriteAll(xs[1..])
    ensures Decode(xs[0].kind, s, p) == (Some(Reread(xs[0].kind, xs[0].value)), q)
  {
    var t := WriteOne(xs[0]);
    q := p + |t|;
    assert s[p..][|t|..] == s[q..];
    assert forall i | 0 <= i < |t| :: s[p + i] == s[p..][i] == t[i];
    EncodesIff(xs[0].kind, xs[0].value);
    ReadsBack(xs[0].kind, xs[0].value, s, p);
  }

  lemma RereadStep(xs: seq<Number>)
    requires xs != []
    ensures RereadAll(xs) == [Reread(xs[0].kind, xs[0].value)] + RereadAll(xs[1..])
  {
  }

  lemma ReadStep(xs: seq<Number>, s: seq<byte>, p: nat, v: int, q: nat)
    requires xs != [] && p <= |s| && q <= |s| && Decode(xs[0].kind, s, p) == (Some(v), q)
    ensures ReadAll(xs, s, p) == ([v] + ReadAll(xs[1..], s, q).0, ReadAll(xs[1..], s, q).1)
  {
  }

  /** Numbers of any kinds written one after another are all read back, with nothing left
      over. */
  lemma {:induction false} SelfDelimiting(xs: seq<Number>, s: seq<byte>, p: nat)
    requires AllWritable(xs) && p <= |s| && s[p..] == WriteAll(xs)
    ensures ReadAll(xs, s, p) == (RereadAll(xs), |s|)
    decreases |xs|
  {
    if xs == [] {
      assert |s[p..]| == |s| - p && RereadAll(xs) == [];
    } else {
      var q := FirstReadsBack(xs, s, p);
      SelfDelimiting(xs[1..], s, q);
      ReadStep(xs, s, p, Reread(xs[0].kind, xs[0].value), q);
      RereadStep(xs);
    }
  }

  /** The number has none of the bits its writer drops: the three highest of byte 3 and of
      the bytes above it, in an eight-byte number. */
  ghost predicate Lossless(x: Number)
  {
    x.value >= 0 ==> AllKept(x.kind, x.value, 0)
  }

  lemma RereadIff(x: Number)
    requires Writable(x)
    ensures Reread(x.kind, x.value) == x.value <==> Lossless(x)
    ensures !x.kind.U8? || x.value <= 0x1FFF_FFFF ==> Lossless(x)
  {
    if x.value >= 0 {
      KeptIff(x.kind, x.value, 0);
      if !x.kind.U8? || x.value <= 0x1FFF_FFFF {
        KeptWhole(x.kind, x.value);
      }
    }
  }

  /** The values come back unchanged exactly when no number among them has a bit that is
      dropped; only eight-byte numbers above 0x1FFFFFFF can. */
  lemma RoundTripIff(xs: seq<Number>)
    requires AllWritable(xs)
    ensures ReadAll(xs, WriteAll(xs), 0).1 == |WriteAll(xs)|
    ensures ReadAll(xs, WriteAll(xs), 0).0 == Values(xs) <==> forall i | 0 <= i < |xs| :: Lossless(xs[i])
    ensures forall i | 0 <= i < |xs| :: !xs[i].kind.U8? || xs[i].value <= 0x1FFF_FFFF ==> Lossless(xs[i])
  {
    SelfDelimiting(xs, WriteAll(xs), 0);
    forall i | 0 <= i < |xs|
      ensures RereadAll(xs)[i] == Values(xs)[i] <==> Lossless(xs[i])
      ensures !xs[i].kind.U8? || xs[i].value <= 0x1FFF_FFFF ==> Lossless(xs[i])
    {
      RereadIff(xs[i]);
    }
  }

  /** An eight-byte number that loses bits: 0x1E0000000 comes back as 0x100000000. */
  lemma EightByteLoses()
    ensures Encode(U8, 0x1_E000_0000).Some?
    ensures Decode(U8, Encode(U8, 0x1_E000_0000).value, 0) == (Some(0x1_0000_0000), 5)
  {
    var v := 0x1_E000_0000;
    EncodesIff(U8, v);
    LeastFit(U8, v, 4) by {
      FitsExactly(U8, v, 4);
    }
    var s := Encode(U8, v).value;
    ReadsBack(U8, v, s, 0);
    assert Kept(U8, 1, 4) == 1;
    assert Kept(U8, 0x1E0, 3) == 0x100;
    assert Kept(U8, 0x1_E000, 2) == 0x1_0000;
    assert Kept(U8, 0x1E0_0000, 1) == 0x100_0000;
  }

  /** The least 16-bit number is accepted and comes back as zero. */
  lemma LeastBecomesZero()
    ensures Encode(S2, -32768) == None && Decode(S2, [0x40], 0) == (Some(0), 1)
  {
    EncodesIff(S2, -32768);
  }
}
