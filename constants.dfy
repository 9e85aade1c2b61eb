/**
 * Decoding a Constant row (section II.22.9 of ECMA-335) the way the
 * extractor's GetConstant does: a nil handle or a null-reference constant
 * gives no value; the integer, boolean and char codes read their blob
 * little-endian through BitConverter; any other code gives a null value.
 */
module Constants {
  import opened Wrappers
  import opened Metadata
  import opened Reflection

  /** 256 to the n. */
  function Pow256(n: nat): (r: nat)
    ensures r >= 1
  {
    if n == 0 then 1 else 256 * Pow256(n - 1)
  }

  /** The unsigned value of bytes read least significant first. */
  function LittleEndian(bytes: seq<byte>): nat
  {
    if bytes == [] then 0 else bytes[0] as nat + 256 * LittleEndian(bytes[1..])
  }

  /** The n-byte little-endian encoding of an unsigned value. */
  function EncodeLittleEndian(v: nat, n: nat): (r: seq<byte>)
    ensures |r| == n
  {
    if n == 0 then [] else [(v % 256) as byte] + EncodeLittleEndian(v / 256, n - 1)
  }

  /** An n-byte value read as two's complement. */
  function Signed(u: nat, n: nat): int
  {
    if n > 0 && u >= Pow256(n) / 2 then u - Pow256(n) else u
  }

  /** The two's-complement bit pattern of a signed value, as an unsigned value. */
  function Unsigned(v: int, n: nat): int
  {
    if v < 0 then v + Pow256(n) else v
  }

  /** The number of blob bytes BitConverter reads for each type code (none for strings). */
  function Width(typeCode: int): nat
  {
    if typeCode in {BooleanCode, SByteCode, ByteCode} then 1
    else if typeCode in {CharCode, Int16Code, UInt16Code} then 2
    else if typeCode in {Int32Code, UInt32Code, SingleCode} then 4
    else if typeCode in {Int64Code, UInt64Code, DoubleCode} then 8
    else 0
  }

  /** The codes GetConstant reads as a signed integer. */
  predicate IsSignedCode(typeCode: int)
  {
    typeCode in {SByteCode, Int16Code, Int32Code, Int64Code}
  }

  /** The codes GetConstant reads as an unsigned integer. */
  predicate IsUnsignedCode(typeCode: int)
  {
    typeCode in {ByteCode, UInt16Code, UInt32Code, UInt64Code}
  }

  /** The codes the switch of GetConstant names. */
  predicate IsKnownCode(typeCode: int)
  {
    IsSignedCode(typeCode) || IsUnsignedCode(typeCode)
    || typeCode in {BooleanCode, CharCode, SingleCode, DoubleCode, StringCode}
  }

  /**
   * The value of one blob under a known code. BitConverter over a span too
   * short for the type throws ArgumentOutOfRangeException; indexing byte 0
   * of an empty blob (the two one-byte cases) throws IndexOutOfRangeException.
   * Bytes past the width are ignored.
   */
  function DecodeBlob(typeCode: int, blob: seq<byte>): (r: Result<ConstantValue, Exception>)
    requires IsKnownCode(typeCode)
    ensures r.Err? <==> |blob| < Width(typeCode)
    ensures r.Err? && typeCode in {SByteCode, ByteCode} ==> r.error == IndexOutOfRange
    ensures r.Err? && typeCode !in {SByteCode, ByteCode} ==> r.error == ArgumentOutOfRange("value")
  {
    var n := Width(typeCode);
    if |blob| < n then
      (if typeCode in {SByteCode, ByteCode} then Err(IndexOutOfRange) else Err(ArgumentOutOfRange("value")))
    else if IsSignedCode(typeCode) then Ok(IntValue(Signed(LittleEndian(blob[..n]), n)))
    else if IsUnsignedCode(typeCode) then Ok(IntValue(LittleEndian(blob[..n])))
    else if typeCode == BooleanCode then Ok(BoolValue(blob[0] != 0))
    else if typeCode == CharCode then Ok(CharValue(LittleEndian(blob[..n])))
    else Ok(Undecoded(typeCode))
  }

  /**
   * DocsPEParser.GetConstant: None where it returns false, Some(value)
   * where it returns true. An unknown code returns true with a null value.
   */
  function GetConstant(c: Option<ConstantRow>): (r: Result<Option<ConstantValue>, Exception>)
    ensures c.None? ==> r == Ok(None)
    ensures c.Some? && c.value.typeCode == NullReferenceCode ==> r == Ok(None)
    ensures c.Some? && c.value.typeCode != NullReferenceCode ==> (r.Ok? ==> r.value.Some?)
    ensures c.Some? && !IsKnownCode(c.value.typeCode) && c.value.typeCode != NullReferenceCode
      ==> r == Ok(Some(NullValue))
    ensures r.Err? <==> c.Some? && IsKnownCode(c.value.typeCode) && |c.value.blob| < Width(c.value.typeCode)
  {
    if c.None? || c.value.typeCode == NullReferenceCode then Ok(None)
    else if !IsKnownCode(c.value.typeCode) then Ok(Some(NullValue))
    else
      var v := DecodeBlob(c.value.typeCode, c.value.blob);
      if v.Err? then Err(v.error) else Ok(Some(v.value))
  }

  /** A little-endian value fits its byte count. */
  lemma {:induction false} LittleEndianBound(bytes: seq<byte>)
    ensures LittleEndian(bytes) < Pow256(|bytes|)
  {
    if bytes != [] {
      LittleEndianBound(bytes[1..]);
    }
  }

  /** Reading back an encoding gives the value. */
  lemma {:induction false} DecodeEncode(v: nat, n: nat)
    requires v < Pow256(n)
    ensures LittleEndian(EncodeLittleEndian(v, n)) == v
  {
    if n > 0 {
      var q := v / 256;
      var low := (v % 256) as byte;
      var rest := EncodeLittleEndian(q, n - 1);
      assert EncodeLittleEndian(v, n) == [low] + rest;
      LittleEndianCons(low, rest);
      QuotientBound(v, n);
      DecodeEncode(q, n - 1);
      LowByte(v);
    }
  }

  /** Reading a byte followed by more bytes. */
  lemma {:induction false} LittleEndianCons(b: byte, rest: seq<byte>)
    ensures LittleEndian([b] + rest) == b as nat + 256 * LittleEndian(rest)
  {
    assert ([b] + rest)[1..] == rest;
  }

  /** The low byte of a value and the value split into that byte and the rest. */
  lemma {:induction false} LowByte(v: nat)
    ensures ((v % 256) as byte) as nat == v % 256
    ensures v % 256 + 256 * (v / 256) == v
  {
  }

  /** Dropping the low byte of a value below 256 to the n leaves one below 256 to the n - 1. */
  lemma {:induction false} QuotientBound(v: nat, n: nat)
    requires n > 0 && v < Pow256(n)
    ensures v / 256 < Pow256(n - 1)
  {
    var p := Pow256(n - 1);
    assert Pow256(n) == 256 * p;
    LowByte(v);
    assert 256 * (v / 256) < 256 * p;
  }

  /** Encoding the value read from bytes gives the bytes back. */
  lemma {:induction false} EncodeDecode(bytes: seq<byte>)
    ensures EncodeLittleEndian(LittleEndian(bytes), |bytes|) == bytes
  {
    if bytes != [] {
      var v := LittleEndian(bytes);
      DigitSplit(bytes[0] as nat, LittleEndian(bytes[1..]));
      EncodeDecode(bytes[1..]);
      assert ((v % 256) as byte) == bytes[0];
    }
  }

  /** The low byte and the rest of a value written as byte + 256 * rest. */
  lemma {:induction false} DigitSplit(b: nat, rest: nat)
    requires b < 256
    ensures (b + 256 * rest) % 256 == b && (b + 256 * rest) / 256 == rest
  {
  }

  /** Two's complement reading undoes the bit pattern of an in-range signed value. */
  lemma {:induction false} SignedUnsigned(v: int, n: nat)
    requires n > 0 && -(Pow256(n) / 2) <= v < Pow256(n) / 2
    ensures 0 <= Unsigned(v, n) < Pow256(n)
    ensures Signed(Unsigned(v, n), n) == v
  {
    assert Pow256(n) == 256 * Pow256(n - 1);
  }

  /**
   * Round trip: a constant a compiler writes for an in-range integer of a
   * signed or unsigned code reads back as that integer, whatever bytes
   * follow the value.
   */
  lemma {:induction false} IntegerRoundTrip(typeCode: int, v: int, extra: seq<byte>)
    requires IsSignedCode(typeCode) || IsUnsignedCode(typeCode)
    requires IsSignedCode(typeCode) ==> -(Pow256(Width(typeCode)) / 2) <= v < Pow256(Width(typeCode)) / 2
    requires IsUnsignedCode(typeCode) ==> 0 <= v < Pow256(Width(typeCode))
    ensures var n := Width(typeCode);
      GetConstant(Some(ConstantRow(typeCode, EncodeLittleEndian(Unsigned(v, n), n) + extra))) == Ok(Some(IntValue(v)))
  {
    var n := Width(typeCode);
    if IsSignedCode(typeCode) {
      SignedUnsigned(v, n);
    }
    var blob := EncodeLittleEndian(Unsigned(v, n), n) + extra;
    assert blob[..n] == EncodeLittleEndian(Unsigned(v, n), n);
    DecodeEncode(Unsigned(v, n), n);
  }

  /** Round trip for booleans and chars: the byte 1 reads as true, 0 as false; a UTF-16 unit reads as itself. */
  lemma {:induction false} BoolCharRoundTrip(b: bool, c: nat)
    requires c < 0x1_0000
    ensures GetConstant(Some(ConstantRow(BooleanCode, [if b then 1 else 0]))) == Ok(Some(BoolValue(b)))
    ensures GetConstant(Some(ConstantRow(CharCode, EncodeLittleEndian(c, 2)))) == Ok(Some(CharValue(c)))
  {
    var blob := EncodeLittleEndian(c, 2);
    assert blob[..2] == blob;
    DecodeEncode(c, 2);
  }

  /** Two's complement reading of an n-byte pattern lies in the signed range of n bytes. */
  lemma {:induction false} SignedRange(u: nat, n: nat)
    requires n > 0 && u < Pow256(n)
    ensures -(Pow256(n) / 2) <= Signed(u, n) < Pow256(n) / 2
  {
    var p := Pow256(n - 1);
    assert Pow256(n) == 256 * p;
    assert Pow256(n) / 2 == 128 * p;
  }

  /** Every decoded integer lies in the range of its code. */
  lemma {:induction false} DecodedInRange(typeCode: int, blob: seq<byte>)
    requires IsSignedCode(typeCode) || IsUnsignedCode(typeCode)
    requires |blob| >= Width(typeCode)
    ensures var n := Width(typeCode); var v := DecodeBlob(typeCode, blob).value.i;
      (IsSignedCode(typeCode) ==> -(Pow256(n) / 2) <= v < Pow256(n) / 2)
      && (IsUnsignedCode(typeCode) ==> 0 <= v < Pow256(n))
  {
    var n := Width(typeCode);
    var u := LittleEndian(blob[..n]);
    LittleEndianBound(blob[..n]);
    if IsSignedCode(typeCode) {
      assert DecodeBlob(typeCode, blob) == Ok(IntValue(Signed(u, n)));
      SignedRange(u, n);
    } else {
      assert DecodeBlob(typeCode, blob) == Ok(IntValue(u));
    }
  }
}
