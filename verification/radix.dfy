/** The order-preserving radix key encoder: fixed-width integers, hugeints,
    intervals and string prefixes become byte strings whose memcmp order is the
    order of the values. The host is taken to be little-endian, so every
    Store-then-BSwap in the encoder denotes a big-endian byte string here. */
module Radix {
  import opened Results
  import opened ByteOrder

  type I8 = x: int | -0x80 <= x < 0x80
  type I16 = x: int | -0x8000 <= x < 0x8000
  type I32 = x: int | -0x8000_0000 <= x < 0x8000_0000
  type I64 = x: int | -0x8000_0000_0000_0000 <= x < 0x8000_0000_0000_0000
  type U8 = x: int | 0 <= x < 0x100
  type U16 = x: int | 0 <= x < 0x1_0000
  type U32 = x: int | 0 <= x < 0x1_0000_0000
  type U64 = x: int | 0 <= x < 0x1_0000_0000_0000_0000

  /** The C++ types the EncodeData/DecodeData templates can be instantiated at;
      OtherType stands for every type without a specialisation. */
  datatype KeyType =
    | BoolType | Int8Type | Int16Type | Int32Type | Int64Type
    | UInt8Type | UInt16Type | UInt32Type | UInt64Type
    | HugeintType | UhugeintType | FloatType | DoubleType | IntervalType
    | OtherType

  /** A value handed to EncodeData. Floating-point values are not modelled. */
  datatype Value =
    | BoolValue(flag: bool)
    | Int8Value(i8: I8)
    | Int16Value(i16: I16)
    | Int32Value(i32: I32)
    | Int64Value(i64: I64)
    | UInt8Value(u8: U8)
    | UInt16Value(u16: U16)
    | UInt32Value(u32: U32)
    | UInt64Value(u64: U64)
    | HugeintValue(upper: I64, lower: U64)
    | UhugeintValue(uupper: U64, ulower: U64)
    | IntervalValue(months: I32, days: I32, micros: I64)
    | OtherValue

  const CREATE_UNSUPPORTED := "Cannot create data from this type"
  const READ_UNSUPPORTED := "Cannot read data from this type"
  const DECODE_UNFINISHED := "FIXME Radix::DecodeData"

  datatype RadixError =
    | NotImplemented(message: string)
    | Internal(message: string)

  function TypeOf(v: Value): (t: KeyType) {
    match v
    case BoolValue(_) => BoolType
    case Int8Value(_) => Int8Type
    case Int16Value(_) => Int16Type
    case Int32Value(_) => Int32Type
    case Int64Value(_) => Int64Type
    case UInt8Value(_) => UInt8Type
    case UInt16Value(_) => UInt16Type
    case UInt32Value(_) => UInt32Type
    case UInt64Value(_) => UInt64Type
    case HugeintValue(_, _) => HugeintType
    case UhugeintValue(_, _) => UhugeintType
    case IntervalValue(_, _, _) => IntervalType
    case OtherValue => OtherType
  }

  /** sizeof(T) for the encodable types. */
  function Width(t: KeyType): (n: nat) {
    match t
    case BoolType => 1
    case Int8Type => 1
    case UInt8Type => 1
    case Int16Type => 2
    case UInt16Type => 2
    case Int32Type => 4
    case UInt32Type => 4
    case FloatType => 4
    case Int64Type => 8
    case UInt64Type => 8
    case DoubleType => 8
    case HugeintType => 16
    case UhugeintType => 16
    case IntervalType => 16
    case OtherType => 0
  }

  /** XOR with 0x80 on a byte: adds 128 modulo 256. */
  function FlipSign(b: Byte): (r: Byte)
    ensures r % 128 == b % 128
    ensures r < 128 <==> b >= 128
  {
    (b + 128) % 256
  }

  lemma FlipSignInvolution(b: Byte)
    ensures FlipSign(FlipSign(b)) == b
  {
  }

  /** The sign-bit flip on the first byte of a key. */
  function FlipFirst(bs: seq<Byte>): (r: seq<Byte>)
    requires |bs| > 0
    ensures |r| == |bs| && r[1..] == bs[1..]
  {
    [FlipSign(bs[0])] + bs[1..]
  }

  lemma FlipFirstInvolution(bs: seq<Byte>)
    requires |bs| > 0
    ensures FlipFirst(FlipFirst(bs)) == bs
  {
    FlipSignInvolution(bs[0]);
    assert FlipFirst(FlipFirst(bs))[0] == bs[0];
  }

  /** Half the range of an n-byte integer: 2^(8n-1). */
  function Half(n: nat): (h: int)
    requires n > 0
    ensures h > 0 && Pow256(n) == 2 * h
  {
    128 * Pow256(n - 1)
  }

  lemma HalfStep(n: nat)
    requires n > 1
    ensures Half(n) == 256 * Half(n - 1)
  {
  }

  predicate InSignedRange(v: int, n: nat) {
    n > 0 && -Half(n) <= v < Half(n)
  }

  /** The n-byte two's complement of v, read as an unsigned number. */
  function TwosComplement(v: int, n: nat): (u: nat)
    requires InSignedRange(v, n)
    ensures u < Pow256(n)
    ensures u < Half(n) <==> v >= 0
  {
    if v < 0 then v + Pow256(n) else v
  }

  /** An n-byte signed value as a key: its two's complement, stored and byte
      swapped into big-endian order, with the sign bit of the first byte
      flipped. */
  function EncodeSigned(v: int, n: nat): (bs: seq<Byte>)
    requires InSignedRange(v, n)
    ensures |bs| == n
  {
    FlipFirst(BigEndian(TwosComplement(v, n), n))
  }

  /** Flipping the top bit of a number in the lower half adds half the range. */
  lemma {:induction false} FlipLow(u: nat, n: nat)
    requires n > 0 && u < Half(n)
    ensures FlipFirst(BigEndian(u, n)) == BigEndian(u + Half(n), n)
    decreases n
  {
    if n == 1 {
      assert BigEndian(u, 1) == [u] && BigEndian(u + 128, 1) == [u + 128];
    } else {
      HalfStep(n);
      var hi := BigEndian(u / 256, n - 1);
      FlipLow(u / 256, n - 1);
      assert (u + Half(n)) / 256 == u / 256 + Half(n - 1) && (u + Half(n)) % 256 == u % 256;
      assert FlipFirst(hi + [u % 256]) == FlipFirst(hi) + [u % 256];
    }
  }

  /** Flipping the top bit of a number in the upper half subtracts half the
      range. */
  lemma {:induction false} FlipHigh(u: nat, n: nat)
    requires n > 0 && Half(n) <= u < Pow256(n)
    ensures FlipFirst(BigEndian(u, n)) == BigEndian(u - Half(n), n)
    decreases n
  {
    if n == 1 {
      assert BigEndian(u, 1) == [u] && BigEndian(u - 128, 1) == [u - 128];
    } else {
      HalfStep(n);
      var hi := BigEndian(u / 256, n - 1);
      FlipHigh(u / 256, n - 1);
      assert (u - Half(n)) / 256 == u / 256 - Half(n - 1) && (u - Half(n)) % 256 == u % 256;
      assert FlipFirst(hi + [u % 256]) == FlipFirst(hi) + [u % 256];
    }
  }

  /** A signed key is the big-endian form of the value shifted up by half the
      range: the sign-bit flip turns two's complement into offset binary. */
  lemma SignedKeyIsOffset(v: int, n: nat)
    requires InSignedRange(v, n)
    ensures 0 <= v + Half(n) < Pow256(n)
    ensures EncodeSigned(v, n) == BigEndian(v + Half(n), n)
  {
    if v >= 0 {
      FlipLow(v, n);
    } else {
      FlipHigh(v + Pow256(n), n);
    }
  }

  function EncodeUnsigned(v: nat, n: nat): (bs: seq<Byte>)
    requires v < Pow256(n)
    ensures |bs| == n
  {
    BigEndian(v, n)
  }

  lemma PowValues()
    ensures Pow256(1) == 0x100 && Pow256(2) == 0x1_0000
    ensures Pow256(4) == 0x1_0000_0000 && Pow256(8) == 0x1_0000_0000_0000_0000
    ensures Half(1) == 0x80 && Half(2) == 0x8000
    ensures Half(4) == 0x8000_0000 && Half(8) == 0x8000_0000_0000_0000
  {
    assert Pow256(3) == 0x100_0000;
    assert Pow256(7) == 0x100_0000_0000_0000 by {
      assert Pow256(5) == 0x100_0000_0000;
      assert Pow256(6) == 0x1_0000_0000_0000;
    }
  }

  // The EncodeData specialisations, one per integer width.

  function EncodeInt8(x: I8): (bs: seq<Byte>)
    ensures |bs| == 1
  {
    PowValues();
    EncodeSigned(x, 1)
  }

  function EncodeInt16(x: I16): (bs: seq<Byte>)
    ensures |bs| == 2
  {
    PowValues();
    EncodeSigned(x, 2)
  }

  function EncodeInt32(x: I32): (bs: seq<Byte>)
    ensures |bs| == 4
  {
    PowValues();
    EncodeSigned(x, 4)
  }

  function EncodeInt64(x: I64): (bs: seq<Byte>)
    ensures |bs| == 8
  {
    PowValues();
    EncodeSigned(x, 8)
  }

  function EncodeUInt16(x: U16): (bs: seq<Byte>)
    ensures |bs| == 2
  {
    PowValues();
    EncodeUnsigned(x, 2)
  }

  function EncodeUInt32(x: U32): (bs: seq<Byte>)
    ensures |bs| == 4
  {
    PowValues();
    EncodeUnsigned(x, 4)
  }

  function EncodeUInt64(x: U64): (bs: seq<Byte>)
    ensures |bs| == 8
  {
    PowValues();
    EncodeUnsigned(x, 8)
  }

  /** Radix::EncodeData<T>: the key bytes of a value, or the generic
      template's NotImplementedException for a type without a specialisation. */
  function EncodeData(v: Value): (r: Result<seq<Byte>, RadixError>)
    ensures r.Success? <==> !v.OtherValue?
    ensures v.OtherValue? ==> r == Failure(NotImplemented(CREATE_UNSUPPORTED))
  {
    match v
    case BoolValue(b) => Success([if b then 1 else 0])
    case Int8Value(x) => Success(EncodeInt8(x))
    case Int16Value(x) => Success(EncodeInt16(x))
    case Int32Value(x) => Success(EncodeInt32(x))
    case Int64Value(x) => Success(EncodeInt64(x))
    case UInt8Value(x) => Success([x])
    case UInt16Value(x) => Success(EncodeUInt16(x))
    case UInt32Value(x) => Success(EncodeUInt32(x))
    case UInt64Value(x) => Success(EncodeUInt64(x))
    case HugeintValue(hi, lo) => Success(EncodeInt64(hi) + EncodeUInt64(lo))
    case UhugeintValue(hi, lo) => Success(EncodeUInt64(hi) + EncodeUInt64(lo))
    case IntervalValue(mo, d, mu) => Success(EncodeInt32(mo) + EncodeInt32(d) + EncodeInt64(mu))
    case OtherValue => Failure(NotImplemented(CREATE_UNSUPPORTED))
  }

  /** Every key of a type has that type's width, sizeof(T). */
  lemma EncodeFixedWidth(v: Value)
    requires !v.OtherValue?
    ensures |EncodeData(v).value| == Width(TypeOf(v))
  {
    if v.HugeintValue? || v.UhugeintValue? || v.IntervalValue? {
      CompositeIsConcatenation(v);
    }
  }

  /** The order the key encoding is meant to preserve: numeric order for the
      integers, false before true, and field-by-field lexicographic order for
      the composite types. */
  predicate Less(a: Value, b: Value)
    requires TypeOf(a) == TypeOf(b)
  {
    match a
    case BoolValue(x) => !x && b.flag
    case Int8Value(x) => x < b.i8
    case Int16Value(x) => x < b.i16
    case Int32Value(x) => x < b.i32
    case Int64Value(x) => x < b.i64
    case UInt8Value(x) => x < b.u8
    case UInt16Value(x) => x < b.u16
    case UInt32Value(x) => x < b.u32
    case UInt64Value(x) => x < b.u64
    case HugeintValue(hi, lo) => hi < b.upper || (hi == b.upper && lo < b.lower)
    case UhugeintValue(hi, lo) => hi < b.uupper || (hi == b.uupper && lo < b.ulower)
    case IntervalValue(mo, d, mu) =>
      mo < b.months || (mo == b.months && (d < b.days || (d == b.days && mu < b.micros)))
    case OtherValue => false
  }

  /** Signed encodings of one width compare like the values. */
  lemma SignedOrder(x: int, y: int, n: nat)
    requires InSignedRange(x, n) && InSignedRange(y, n)
    ensures x < y <==> LexLess(EncodeSigned(x, n), EncodeSigned(y, n))
    ensures x == y <==> EncodeSigned(x, n) == EncodeSigned(y, n)
  {
    SignedKeyIsOffset(x, n);
    SignedKeyIsOffset(y, n);
    BigEndianOrder(x + Half(n), y + Half(n), n);
    BigEndianInjective(x + Half(n), y + Half(n), n);
  }

  lemma UnsignedOrder(x: nat, y: nat, n: nat)
    requires x < Pow256(n) && y < Pow256(n)
    ensures x < y <==> LexLess(EncodeUnsigned(x, n), EncodeUnsigned(y, n))
    ensures x == y <==> EncodeUnsigned(x, n) == EncodeUnsigned(y, n)
  {
    BigEndianOrder(x, y, n);
    BigEndianInjective(x, y, n);
  }

  /** Two concatenations of equal-length parts are equal exactly when the
      parts are. */
  lemma ConcatEqual(a1: seq<Byte>, a2: seq<Byte>, b1: seq<Byte>, b2: seq<Byte>)
    requires |a1| == |b1|
    ensures a1 + a2 == b1 + b2 <==> a1 == b1 && a2 == b2
  {
    if a1 + a2 == b1 + b2 {
      assert a1 == (a1 + a2)[..|a1|] && b1 == (b1 + b2)[..|b1|];
      assert a2 == (a1 + a2)[|a1|..] && b2 == (b1 + b2)[|b1|..];
    }
  }

  /** The keys of the signed integer types compare and coincide like the values. */
  lemma SignedKeys(a: Value, b: Value)
    requires TypeOf(a) == TypeOf(b)
    requires a.Int8Value? || a.Int16Value? || a.Int32Value? || a.Int64Value?
    ensures Less(a, b) <==> LexLess(EncodeData(a).value, EncodeData(b).value)
    ensures EncodeData(a) == EncodeData(b) <==> a == b
  {
    PowValues();
    if a.Int8Value? {
      SignedOrder(a.i8, b.i8, 1);
    } else if a.Int16Value? {
      SignedOrder(a.i16, b.i16, 2);
    } else if a.Int32Value? {
      SignedOrder(a.i32, b.i32, 4);
    } else {
      SignedOrder(a.i64, b.i64, 8);
    }
  }

  /** The keys of bool and the unsigned integer types compare and coincide
      like the values. */
  lemma UnsignedKeys(a: Value, b: Value)
    requires TypeOf(a) == TypeOf(b)
    requires a.BoolValue? || a.UInt8Value? || a.UInt16Value? || a.UInt32Value? || a.UInt64Value?
    ensures Less(a, b) <==> LexLess(EncodeData(a).value, EncodeData(b).value)
    ensures EncodeData(a) == EncodeData(b) <==> a == b
  {
    PowValues();
    if a.UInt16Value? {
      UnsignedOrder(a.u16, b.u16, 2);
    } else if a.UInt32Value? {
      UnsignedOrder(a.u32, b.u32, 4);
    } else if a.UInt64Value? {
      UnsignedOrder(a.u64, b.u64, 8);
    }
  }

  /** The keys of the composite types compare and coincide like the values. */
  lemma CompositeKeys(a: Value, b: Value)
    requires TypeOf(a) == TypeOf(b)
    requires a.HugeintValue? || a.UhugeintValue? || a.IntervalValue?
    ensures Less(a, b) <==> LexLess(EncodeData(a).value, EncodeData(b).value)
    ensures EncodeData(a) == EncodeData(b) <==> a == b
  {
    if a.HugeintValue? {
      HugeintKeys(a.upper, a.lower, b.upper, b.lower);
    } else if a.UhugeintValue? {
      UhugeintKeys(a.uupper, a.ulower, b.uupper, b.ulower);
    } else {
      IntervalKeys(a.months, a.days, a.micros, b.months, b.days, b.micros);
    }
  }

  lemma KeysByFamily(a: Value, b: Value)
    requires TypeOf(a) == TypeOf(b) && !a.OtherValue?
    ensures Less(a, b) <==> LexLess(EncodeData(a).value, EncodeData(b).value)
    ensures EncodeData(a) == EncodeData(b) <==> a == b
  {
    if a.Int8Value? || a.Int16Value? || a.Int32Value? || a.Int64Value? {
      SignedKeys(a, b);
    } else if a.HugeintValue? || a.UhugeintValue? || a.IntervalValue? {
      CompositeKeys(a, b);
    } else {
      UnsignedKeys(a, b);
    }
  }

  /** Order preservation: within one type, a value is smaller than another
      exactly when its key bytes are memcmp-smaller. */
  lemma EncodeOrderPreserving(a: Value, b: Value)
    requires TypeOf(a) == TypeOf(b) && !a.OtherValue?
    ensures EncodeData(a).Success? && EncodeData(b).Success?
    ensures Less(a, b) <==> LexLess(EncodeData(a).value, EncodeData(b).value)
  {
    KeysByFamily(a, b);
  }

  lemma Int64Order(x: I64, y: I64)
    ensures x < y <==> LexLess(EncodeInt64(x), EncodeInt64(y))
    ensures x == y <==> EncodeInt64(x) == EncodeInt64(y)
  {
    PowValues();
    SignedOrder(x, y, 8);
  }

  lemma UInt64Order(x: U64, y: U64)
    ensures x < y <==> LexLess(EncodeUInt64(x), EncodeUInt64(y))
    ensures x == y <==> EncodeUInt64(x) == EncodeUInt64(y)
  {
    PowValues();
    UnsignedOrder(x, y, 8);
  }

  /** memcmp on two concatenated fixed-width fields compares field by field. */
  lemma PairLex(h1: seq<Byte>, l1: seq<Byte>, h2: seq<Byte>, l2: seq<Byte>)
    requires |h1| == |h2|
    ensures LexLess(h1 + l1, h2 + l2) <==> LexLess(h1, h2) || (h1 == h2 && LexLess(l1, l2))
    ensures h1 + l1 == h2 + l2 <==> h1 == h2 && l1 == l2
  {
    LexLessConcat(h1, l1, h2, l2);
    ConcatEqual(h1, l1, h2, l2);
  }

  lemma HugeintKeys(hi: I64, lo: U64, hi': I64, lo': U64)
    ensures var k, k' := EncodeData(HugeintValue(hi, lo)).value, EncodeData(HugeintValue(hi', lo')).value;
            && (LexLess(k, k') <==> hi < hi' || (hi == hi' && lo < lo'))
            && (k == k' <==> hi == hi' && lo == lo')
  {
    Int64Order(hi, hi');
    UInt64Order(lo, lo');
    PairLex(EncodeInt64(hi), EncodeUInt64(lo), EncodeInt64(hi'), EncodeUInt64(lo'));
  }

  lemma UhugeintKeys(hi: U64, lo: U64, hi': U64, lo': U64)
    ensures var k, k' := EncodeData(UhugeintValue(hi, lo)).value, EncodeData(UhugeintValue(hi', lo')).value;
            && (LexLess(k, k') <==> hi < hi' || (hi == hi' && lo < lo'))
            && (k == k' <==> hi == hi' && lo == lo')
  {
    UInt64Order(hi, hi');
    UInt64Order(lo, lo');
    PairLex(EncodeUInt64(hi), EncodeUInt64(lo), EncodeUInt64(hi'), EncodeUInt64(lo'));
  }

  lemma IntervalKeys(mo: I32, d: I32, mu: I64, mo': I32, d': I32, mu': I64)
    ensures var k, k' := EncodeData(IntervalValue(mo, d, mu)).value, EncodeData(IntervalValue(mo', d', mu')).value;
            && (LexLess(k, k') <==> mo < mo' || (mo == mo' && (d < d' || (d == d' && mu < mu'))))
            && (k == k' <==> mo == mo' && d == d' && mu == mu')
  {
    PowValues();
    var m1, m2 := EncodeSigned(mo, 4), EncodeSigned(mo', 4);
    var d1, d2 := EncodeSigned(d, 4), EncodeSigned(d', 4);
    var u1, u2 := EncodeSigned(mu, 8), EncodeSigned(mu', 8);
    assert EncodeData(IntervalValue(mo, d, mu)).value == m1 + d1 + u1;
    assert EncodeData(IntervalValue(mo', d', mu')).value == m2 + d2 + u2;
    SignedOrder(mo, mo', 4);
    SignedOrder(d, d', 4);
    SignedOrder(mu, mu', 8);
    TripleLex(m1, d1, u1, m2, d2, u2);
  }

  /** memcmp on three concatenated fixed-width fields compares field by field. */
  lemma TripleLex(m1: seq<Byte>, d1: seq<Byte>, u1: seq<Byte>, m2: seq<Byte>, d2: seq<Byte>, u2: seq<Byte>)
    requires |m1| == |m2| && |d1| == |d2|
    ensures LexLess(m1 + d1 + u1, m2 + d2 + u2)
            <==> LexLess(m1, m2) || (m1 == m2 && (LexLess(d1, d2) || (d1 == d2 && LexLess(u1, u2))))
    ensures m1 + d1 + u1 == m2 + d2 + u2 <==> m1 == m2 && d1 == d2 && u1 == u2
  {
    PairLex(m1 + d1, u1, m2 + d2, u2);
    PairLex(m1, d1, m2, d2);
  }

  /** Composite keys are the concatenation of their fields' keys: hugeint is
      int64(upper) then uint64(lower), uhugeint is uint64 twice, interval is
      int32(months), int32(days), int64(micros). */
  lemma CompositeIsConcatenation(v: Value)
    requires v.HugeintValue? || v.UhugeintValue? || v.IntervalValue?
    ensures v.HugeintValue? ==>
      EncodeData(v).value == EncodeData(Int64Value(v.upper)).value + EncodeData(UInt64Value(v.lower)).value
    ensures v.UhugeintValue? ==>
      EncodeData(v).value == EncodeData(UInt64Value(v.uupper)).value + EncodeData(UInt64Value(v.ulower)).value
    ensures v.IntervalValue? ==>
      EncodeData(v).value == EncodeData(Int32Value(v.months)).value + EncodeData(Int32Value(v.days)).value
                             + EncodeData(Int64Value(v.micros)).value
    ensures |EncodeData(v).value| == 16
  {
    if v.HugeintValue? {
      assert EncodeData(v).value == EncodeInt64(v.upper) + EncodeUInt64(v.lower);
    } else if v.UhugeintValue? {
      assert EncodeData(v).value == EncodeUInt64(v.uupper) + EncodeUInt64(v.ulower);
    } else {
      assert EncodeData(v).value == EncodeInt32(v.months) + EncodeInt32(v.days) + EncodeInt64(v.micros);
    }
  }

  /** Unsigned keys read back big-endian give the value; bool keys are the
      byte 1 or 0. */
  lemma UnsignedKeysAreBigEndian(v: Value)
    requires v.UInt8Value? || v.UInt16Value? || v.UInt32Value? || v.UInt64Value? || v.BoolValue?
    ensures v.UInt8Value? ==> FromBigEndian(EncodeData(v).value) == v.u8
    ensures v.UInt16Value? ==> FromBigEndian(EncodeData(v).value) == v.u16
    ensures v.UInt32Value? ==> FromBigEndian(EncodeData(v).value) == v.u32
    ensures v.UInt64Value? ==> FromBigEndian(EncodeData(v).value) == v.u64
    ensures v.BoolValue? ==> EncodeData(v).value == [if v.flag then 1 else 0]
  {
    PowValues();
    if v.UInt8Value? {
      assert FromBigEndian([v.u8]) == FromBigEndian([]) * 256 + v.u8;
    } else if v.UInt16Value? {
      FromBigEndianInverse(v.u16, 2);
    } else if v.UInt32Value? {
      FromBigEndianInverse(v.u32, 4);
    } else if v.UInt64Value? {
      FromBigEndianInverse(v.u64, 8);
    }
  }

  /** A signed key read back big-endian is the value shifted by half the range. */
  lemma SignedKeyValue(x: int, n: nat)
    requires InSignedRange(x, n)
    ensures FromBigEndian(EncodeSigned(x, n)) == x + Half(n)
  {
    SignedKeyIsOffset(x, n);
    FromBigEndianInverse(x + Half(n), n);
  }

  lemma SignedKeysAreOffsetBigEndian(v: Value)
    requires v.Int8Value? || v.Int16Value? || v.Int32Value? || v.Int64Value?
    ensures v.Int8Value? ==> FromBigEndian(EncodeData(v).value) == v.i8 + 0x80
    ensures v.Int16Value? ==> FromBigEndian(EncodeData(v).value) == v.i16 + 0x8000
    ensures v.Int32Value? ==> FromBigEndian(EncodeData(v).value) == v.i32 + 0x8000_0000
    ensures v.Int64Value? ==> FromBigEndian(EncodeData(v).value) == v.i64 + 0x8000_0000_0000_0000
  {
    PowValues();
    if v.Int8Value? {
      SignedKeyValue(v.i8, 1);
    } else if v.Int16Value? {
      SignedKeyValue(v.i16, 2);
    } else if v.Int32Value? {
      SignedKeyValue(v.i32, 4);
    } else {
      SignedKeyValue(v.i64, 8);
    }
  }

  /** Every encodable type's keys have one fixed length, and distinct values of
      a type have distinct keys. */
  lemma EncodeInjective(a: Value, b: Value)
    requires TypeOf(a) == TypeOf(b) && !a.OtherValue?
    ensures |EncodeData(a).value| == |EncodeData(b).value|
    ensures EncodeData(a) == EncodeData(b) <==> a == b
  {
    EncodeFixedWidth(a);
    EncodeFixedWidth(b);
    KeysByFamily(a, b);
  }

  /** Reading an int64 key back: undo the sign flip, then read the eight bytes
      big-endian as a two's complement number. */
  function DecodeInt64(input: seq<Byte>): (v: I64)
    requires |input| >= 8
  {
    PowValues();
    var u := FromBigEndian(FlipFirst(input[..8]));
    if u >= Half(8) then u - Pow256(8) else u
  }

  /** Radix::DecodeData<T>: only the int64 specialisation is implemented; the
      other specialisations throw an InternalException and the generic
      template a NotImplementedException. */
  function DecodeData(t: KeyType, input: seq<Byte>): (r: Result<Value, RadixError>)
    requires t == Int64Type ==> |input| >= 8
    ensures r.Success? <==> t == Int64Type
    ensures r.Success? ==> TypeOf(r.value) == Int64Type
    ensures t == OtherType ==> r == Failure(NotImplemented(READ_UNSUPPORTED))
    ensures t != OtherType && t != Int64Type ==> r == Failure(Internal(DECODE_UNFINISHED))
  {
    match t
    case Int64Type => Success(Int64Value(DecodeInt64(input)))
    case OtherType => Failure(NotImplemented(READ_UNSUPPORTED))
    case _ => Failure(Internal(DECODE_UNFINISHED))
  }

  /** Decoding an int64 key gives back the value. */
  lemma DecodeEncodeInt64(v: I64)
    ensures EncodeData(Int64Value(v)).Success?
    ensures DecodeData(Int64Type, EncodeData(Int64Value(v)).value) == Success(Int64Value(v))
  {
    PowValues();
    var u := TwosComplement(v, 8);
    var key := EncodeData(Int64Value(v)).value;
    assert key == FlipFirst(BigEndian(u, 8));
    assert key[..8] == key;
    FlipFirstInvolution(BigEndian(u, 8));
    FromBigEndianInverse(u, 8);
  }

  /** Encoding a decoded int64 gives back the eight bytes that were read. */
  lemma EncodeDecodeInt64(input: seq<Byte>)
    requires |input| >= 8
    ensures EncodeData(DecodeData(Int64Type, input).value) == Success(input[..8])
  {
    PowValues();
    var bs := input[..8];
    var u := FromBigEndian(FlipFirst(bs));
    var v := DecodeInt64(input);
    assert TwosComplement(v, 8) == u;
    BigEndianInverse(FlipFirst(bs));
    FlipFirstInvolution(bs);
    assert EncodeData(Int64Value(v)).value == FlipFirst(BigEndian(u, 8));
  }

  function Zeros(n: nat): (z: seq<Byte>)
    ensures |z| == n && forall i | 0 <= i < n :: z[i] == 0
  {
    seq(n, _ => 0)
  }

  /** Radix::EncodeStringDataPrefix: copy at most prefix_len bytes of the
      string and pad a short string with zero bytes. */
  function EncodeStringDataPrefix(value: seq<Byte>, prefixLen: nat): (r: seq<Byte>)
    ensures |r| == prefixLen
    ensures forall i | 0 <= i < prefixLen && i < |value| :: r[i] == value[i]
    ensures forall i | |value| <= i < prefixLen :: r[i] == 0
  {
    var len := |value|;
    var copied := value[..if len < prefixLen then len else prefixLen];
    if len < prefixLen then copied + Zeros(prefixLen - len) else copied
  }

  /** A shorter prefix key is the start of a longer one. */
  lemma PrefixOfLongerPrefix(value: seq<Byte>, n: nat, m: nat)
    requires n <= m
    ensures EncodeStringDataPrefix(value, m)[..n] == EncodeStringDataPrefix(value, n)
  {
  }

  /** Peeling the first byte off a prefix key. */
  lemma PrefixCons(value: seq<Byte>, n: nat)
    requires n > 0
    ensures var head := if |value| > 0 then value[0] else 0;
            var tail := if |value| > 0 then value[1..] else [];
            EncodeStringDataPrefix(value, n) == [head] + EncodeStringDataPrefix(tail, n - 1)
  {
  }

  predicate LexLessOrEqual(a: seq<Byte>, b: seq<Byte>) {
    a == b || LexLess(a, b)
  }

  /** Prefix keys never invert the memcmp order of the full strings: a string
      that sorts first has a prefix key that sorts first or ties. */
  lemma {:induction false} PrefixMonotone(a: seq<Byte>, b: seq<Byte>, n: nat)
    requires LexLessOrEqual(a, b)
    ensures LexLessOrEqual(EncodeStringDataPrefix(a, n), EncodeStringDataPrefix(b, n))
    decreases n
  {
    if n > 0 && a != b {
      var ha := if |a| > 0 then a[0] else 0;
      var ta := if |a| > 0 then a[1..] else [];
      var hb := b[0];
      var tb := b[1..];
      PrefixCons(a, n);
      PrefixCons(b, n);
      var pa, pb := EncodeStringDataPrefix(ta, n - 1), EncodeStringDataPrefix(tb, n - 1);
      assert ([ha] + pa)[1..] == pa && ([hb] + pb)[1..] == pb;
      if ha == hb {
        assert LexLessOrEqual(ta, tb);
        PrefixMonotone(ta, tb, n - 1);
      }
    }
  }
}
