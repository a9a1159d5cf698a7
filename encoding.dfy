/**
 * The default value encoder, MarshalBigEndian (fixture.go:220-242), and the
 * decoding convention that is its partner.
 *
 * A Go `interface{}` cell value is modelled as a closed tagged union of the
 * integer widths the encoder switches on and the string case. Go strings are
 * immutable byte strings, so a text value carries its bytes.
 */
module Encoding {
  import opened Wrappers

  newtype byte = x: int | 0 <= x < 0x100
  newtype int8 = x: int | -0x80 <= x < 0x80
  newtype int16 = x: int | -0x8000 <= x < 0x8000
  newtype int32 = x: int | -0x8000_0000 <= x < 0x8000_0000
  newtype int64 = x: int | -0x8000_0000_0000_0000 <= x < 0x8000_0000_0000_0000

  type Bytes = seq<byte>

  const TWO_TO_THE_63: nat := 0x8000_0000_0000_0000
  const TWO_TO_THE_64: nat := 0x1_0000_0000_0000_0000

  /** A cell value as the YAML decoder hands it over. Go's `int` is 64 bits wide here. */
  datatype Value =
    | Int(i: int64)
    | Int8(i8: int8)
    | Int16(i16: int16)
    | Int32(i32: int32)
    | Int64(i64: int64)
    | Str(s: Bytes)

  /** The dynamic type of a value: what a reader must know to decode a cell. */
  datatype Kind = IntKind | Int8Kind | Int16Kind | Int32Kind | Int64Kind | StrKind

  function KindOf(v: Value): Kind
  {
    match v
    case Int(_) => IntKind
    case Int8(_) => Int8Kind
    case Int16(_) => Int16Kind
    case Int32(_) => Int32Kind
    case Int64(_) => Int64Kind
    case Str(_) => StrKind
  }

  /** `int64(t)`: the value sign-extended to 64 bits; narrowing back to its own width undoes it. */
  function SignExtend(v: Value): (x: int64)
    requires !v.Str?
    ensures Narrow(KindOf(v), x) == Some(v)
  {
    match v
    case Int(x) => x
    case Int8(x) => x as int64
    case Int16(x) => x as int64
    case Int32(x) => x as int64
    case Int64(x) => x
  }

  /** `uint64(x)` for an int64 `x`: the two's-complement bit pattern read as unsigned. */
  function Uint64Of(x: int64): (u: nat)
    ensures u < TWO_TO_THE_64
    ensures (u - x as int) % TWO_TO_THE_64 == 0
    ensures (x < 0) == (u >= TWO_TO_THE_63)
  {
    if x < 0 then x as int + TWO_TO_THE_64 else x as int
  }

  /** `int64(u)` for a uint64 `u`: the inverse reinterpretation. */
  function Int64Of(u: nat): (x: int64)
    requires u < TWO_TO_THE_64
    ensures (u - x as int) % TWO_TO_THE_64 == 0
  {
    if u < TWO_TO_THE_63 then u as int64 else (u - TWO_TO_THE_64) as int64
  }

  function Pow256(n: nat): (p: nat)
    ensures p > 0
  {
    if n == 0 then 1 else 256 * Pow256(n - 1)
  }

  /** The n-byte big-endian form of `u`, most significant byte first. */
  function BigEndianBytes(u: nat, n: nat): (b: Bytes)
    requires u < Pow256(n)
    ensures |b| == n
  {
    if n == 0 then [] else BigEndianBytes(u / 256, n - 1) + [(u % 256) as byte]
  }

  /** The unsigned number whose big-endian form is `b`. */
  function BigEndianValue(b: Bytes): (u: nat)
    ensures u < Pow256(|b|)
  {
    if b == [] then 0 else BigEndianValue(b[..|b| - 1]) * 256 + b[|b| - 1] as int
  }

  /** `binary.BigEndian.PutUint64` into a fresh 8-byte buffer; `Uint64` reads the number back. */
  function PutUint64(u: nat): (b: Bytes)
    requires u < TWO_TO_THE_64
    ensures |b| == 8 && Uint64(b) == u
  {
    assert Pow256(8) == TWO_TO_THE_64;
    BigEndianValueOfBytes(u, 8);
    BigEndianBytes(u, 8)
  }

  /** `binary.BigEndian.Uint64`. */
  function Uint64(b: Bytes): nat
    requires |b| == 8
  {
    BigEndianValue(b)
  }

  /**
   * MarshalBigEndian: every integer width becomes 8 bytes holding the
   * big-endian two's complement of the value sign-extended to int64; a string
   * is returned as its own bytes.
   */
  function MarshalBigEndian(v: Value): (b: Bytes)
    ensures |b| == if v.Str? then |v.s| else 8
  {
    match v
    case Str(s) => s
    case _ => PutUint64(Uint64Of(SignExtend(v)))
  }

  /** Narrows a decoded int64 to the given integer kind, if it fits. */
  function Narrow(k: Kind, x: int64): Option<Value>
    requires k != StrKind
  {
    match k
    case IntKind => Some(Int(x))
    case Int64Kind => Some(Int64(x))
    case Int8Kind => if -0x80 <= x < 0x80 then Some(Int8(x as int8)) else None
    case Int16Kind => if -0x8000 <= x < 0x8000 then Some(Int16(x as int16)) else None
    case Int32Kind => if -0x8000_0000 <= x < 0x8000_0000 then Some(Int32(x as int32)) else None
  }

  /**
   * The reading convention for cells written by MarshalBigEndian: text is the
   * bytes themselves; an integer cell must hold exactly 8 bytes, read as a
   * big-endian two's-complement int64 that must fit the expected width.
   */
  function Unmarshal(k: Kind, b: Bytes): Option<Value>
  {
    if k == StrKind then Some(Str(b))
    else if |b| != 8 then None
    else Narrow(k, Int64Of(Uint64(b)))
  }

  lemma {:induction false} BigEndianValueOfBytes(u: nat, n: nat)
    requires u < Pow256(n)
    ensures BigEndianValue(BigEndianBytes(u, n)) == u
  {
    if n > 0 {
      var b := BigEndianBytes(u, n);
      assert b[..n - 1] == BigEndianBytes(u / 256, n - 1);
      BigEndianValueOfBytes(u / 256, n - 1);
    }
  }

  lemma {:induction false} BigEndianBytesOfValue(b: Bytes)
    ensures BigEndianBytes(BigEndianValue(b), |b|) == b
  {
    if b != [] {
      var n := |b| - 1;
      var u := BigEndianValue(b);
      assert u / 256 == BigEndianValue(b[..n]);
      assert u % 256 == b[n] as int;
      BigEndianBytesOfValue(b[..n]);
      assert b == b[..n] + [b[n]];
    }
  }

  /** The leading byte of a big-endian number carries its top 8 bits. */
  lemma {:induction false} BigEndianLeadingByte(b: Bytes)
    requires |b| > 0
    ensures BigEndianValue(b) == b[0] as int * Pow256(|b| - 1) + BigEndianValue(b[1..])
  {
    if |b| > 1 {
      var n := |b| - 1;
      var init, tail := b[..n], b[1..];
      assert init[1..] == tail[..n - 1];
      assert init[0] == b[0] && tail[n - 1] == b[n];
      BigEndianLeadingByte(init);
      var lead, p, mid, last := b[0] as int, Pow256(n - 1), BigEndianValue(init[1..]), b[n] as int;
      assert BigEndianValue(tail) == mid * 256 + last;
      assert BigEndianValue(b) == (lead * p + mid) * 256 + last;
      ShiftByte(lead, p, mid, last);
    } else {
      assert b[1..] == [];
      assert b[..0] == [];
    }
  }

  /** Appending a byte to a number shifts its leading part up by one byte too. */
  lemma ShiftByte(lead: int, p: int, mid: int, last: int)
    ensures (lead * p + mid) * 256 + last == lead * (256 * p) + (mid * 256 + last)
  {
  }

  /** Every integer input yields 8 bytes that read back, big-endian, as its sign-extended value. */
  lemma MarshalIntegerIsBigEndian(v: Value)
    requires !v.Str?
    ensures |MarshalBigEndian(v)| == 8
    ensures Uint64(MarshalBigEndian(v)) == Uint64Of(SignExtend(v))
    ensures Int64Of(Uint64(MarshalBigEndian(v))) == SignExtend(v)
  {
    assert Pow256(8) == TWO_TO_THE_64;
    BigEndianValueOfBytes(Uint64Of(SignExtend(v)), 8);
  }

  /** Two's complement: the top bit of the first byte is set exactly for negative values. */
  lemma MarshalSignByte(v: Value)
    requires !v.Str?
    ensures (MarshalBigEndian(v)[0] >= 0x80) == (SignExtend(v) < 0)
  {
    var b := MarshalBigEndian(v);
    MarshalIntegerIsBigEndian(v);
    BigEndianLeadingByte(b);
    assert Pow256(7) == 0x100_0000_0000_0000;
    assert |b[1..]| == 7;
    TopBit(b[0] as int, BigEndianValue(b[1..]));
  }

  /** A 64-bit number is at least 2^63 exactly when its leading byte is at least 0x80. */
  lemma TopBit(lead: int, rest: int)
    requires 0 <= lead < 0x100 && 0 <= rest < 0x100_0000_0000_0000
    ensures (lead >= 0x80) == (lead * 0x100_0000_0000_0000 + rest >= TWO_TO_THE_63)
  {
  }

  /** A string input comes back unchanged, whatever its length. */
  lemma MarshalStringIsIdentity(v: Value)
    requires v.Str?
    ensures MarshalBigEndian(v) == v.s
    ensures |MarshalBigEndian(v)| == |v.s|
  {
  }

  /** Round trip: decoding an encoded value with its own kind gives the value back. */
  lemma UnmarshalMarshal(v: Value)
    ensures Unmarshal(KindOf(v), MarshalBigEndian(v)) == Some(v)
  {
    if !v.Str? {
      MarshalIntegerIsBigEndian(v);
    }
  }

  /** The other direction: whatever decodes to `v` is exactly the encoding of `v`. */
  lemma MarshalUnmarshal(k: Kind, b: Bytes, v: Value)
    requires Unmarshal(k, b) == Some(v)
    ensures KindOf(v) == k
    ensures MarshalBigEndian(v) == b
  {
    if k != StrKind {
      var x := Int64Of(Uint64(b));
      assert SignExtend(v) == x;
      assert Uint64Of(x) == Uint64(b);
      assert Pow256(8) == TWO_TO_THE_64;
      BigEndianBytesOfValue(b);
    }
  }

  /** The n-byte big-endian form of the largest n-byte number is n bytes of 0xFF. */
  lemma {:induction false} AllOnesBytes(n: nat)
    ensures BigEndianBytes(Pow256(n) - 1, n) == seq(n, _ => 0xFF as byte)
  {
    if n > 0 {
      var p := Pow256(n - 1);
      assert Pow256(n) - 1 == 256 * (p - 1) + 255;
      assert (Pow256(n) - 1) / 256 == p - 1 && (Pow256(n) - 1) % 256 == 255;
      AllOnesBytes(n - 1);
    }
  }

  /** Sign extension in action: a narrow -1 and a 64-bit -1 encode to the same eight 0xFF bytes. */
  lemma NegativeOneEncoding()
    ensures MarshalBigEndian(Int8(-1)) == MarshalBigEndian(Int64(-1))
    ensures MarshalBigEndian(Int8(-1)) == [0xFF, 0xFF, 0xFF, 0xFF, 0xFF, 0xFF, 0xFF, 0xFF]
  {
    assert Pow256(8) == TWO_TO_THE_64;
    assert Uint64Of(SignExtend(Int8(-1))) == TWO_TO_THE_64 - 1 == Uint64Of(SignExtend(Int64(-1)));
    AllOnesBytes(8);
  }
}
