/** ASN.1 values as DER writes them, and DER INTEGER (NTumbleBit/BouncyCastle/asn1/DerInteger.cs). */
module Asn1 {
  import opened Wrappers
  import opened Numeric
  import opened Bytes

  datatype Asn1Error =
    | ArgumentNull(parameter: string)
    | IllegalObject(typeName: string)
    | BadSequenceSize(count: nat)
    | NotAnOid(text: string)
    | NotABranch(text: string)
    | FormatError(text: string)
    | InvalidValue(message: string)
    | ZeroLengthInteger

  /** The ASN.1 objects the modelled structures build and read. */
  datatype Asn1Object =
    | ObjectIdentifier(id: string)
    | Integer(integer: DerInteger)
    | Sequence(elements: seq<Asn1Object>)
    | Null
    | OtherObject(typeName: string)

  /** .NET arrays hold fewer than 2^31 elements. */
  const MaxArrayLength: nat := 0x8000_0000

  const IntegerTag: byte := 0x02
  const ObjectIdentifierTag: byte := 0x06

  /** DER INTEGER: the content octets, kept exactly as given or as produced from a value. */
  datatype DerInteger = DerInteger(bytes: seq<byte>) {

    /** Value: the signed two's-complement reading; a zero-length array has no value. */
    function Value(): (r: Result<int, Asn1Error>)
      ensures r.Failure? <==> |bytes| == 0
      ensures r.Success? ==> -128 * Pow(256, |bytes| - 1) <= r.value < 128 * Pow(256, |bytes| - 1)
    {
      if |bytes| == 0 then Failure(ZeroLengthInteger)
      else
        SignedRange(bytes);
        Success(Signed(bytes))
    }

    /** PositiveValue: the unsigned reading of the same bytes. */
    function PositiveValue(): (r: nat)
      ensures r < Pow(256, |bytes|)
    {
      UnsignedBound(bytes);
      Unsigned(bytes)
    }

    /** Encode: tag 0x02, the DER length, then the stored bytes unchanged. */
    function Encode(): (r: seq<byte>)
      requires |bytes| < MaxArrayLength
      ensures |r| >= 2 + |bytes| && r[0] == IntegerTag && r[|r| - |bytes|..] == bytes
    {
      var r := EncodeTlv(IntegerTag, bytes);
      assert r == [IntegerTag] + EncodeLength(|bytes|) + bytes;
      r
    }

    /** Asn1GetHashCode: Arrays.GetHashCode of the content bytes, a function this model leaves open. */
    function Asn1GetHashCode(arrayHash: seq<byte> -> int): int
    {
      arrayHash(bytes)
    }
  }

  /** new DerInteger(int): the value must fit C#'s int. */
  function FromInt(value: int): (r: DerInteger)
    requires -0x8000_0000 <= value < 0x8000_0000
    ensures |r.bytes| <= 4
    ensures r.Value() == Success(value)
  {
    assert Pow(256, 3) == 0x100_0000;
    TwosComplementLength(value, 4);
    FromBigInteger(Some(value)).value
  }

  /** new DerInteger(BigInteger): rejects null, then stores the shortest two's-complement form. */
  function FromBigInteger(value: Option<int>): (r: Result<DerInteger, Asn1Error>)
    ensures value.None? ==> r == Failure(ArgumentNull("value"))
    ensures value.Some? ==> r.Success? && r.value.Value() == Success(value.value)
  {
    match value
    case None => Failure(ArgumentNull("value"))
    case Some(v) =>
      SignedOfTwosComplement(v);
      Success(DerInteger(TwosComplement(v)))
  }

  /** DerInteger.GetInstance: null and DER INTEGERs pass through, anything else is rejected. */
  function GetInstance(obj: Option<Asn1Object>): (r: Result<Option<DerInteger>, Asn1Error>)
    ensures obj.None? ==> r == Success(None)
    ensures obj.Some? && obj.value.Integer? ==> r == Success(Some(obj.value.integer))
    ensures obj.Some? && !obj.value.Integer? ==> r.Failure? && r.error.IllegalObject?
  {
    match obj
    case None => Success(None)
    case Some(Integer(i)) => Success(Some(i))
    case Some(o) => Failure(IllegalObject(TypeName(o)))
  }

  function TypeName(o: Asn1Object): string
  {
    match o
    case ObjectIdentifier(_) => "DerObjectIdentifier"
    case Integer(_) => "DerInteger"
    case Sequence(_) => "DerSequence"
    case Null => "DerNull"
    case OtherObject(name) => name
  }

  /** Asn1Equals: two DER INTEGERs are equal exactly when their stored bytes are. */
  function Asn1Equals(a: DerInteger, other: Asn1Object): (r: bool)
    ensures r <==> other == Integer(a)
    ensures r ==> other.integer.Value() == a.Value() && other.integer.PositiveValue() == a.PositiveValue()
  {
    other.Integer? && a.bytes == other.integer.bytes
  }

  /** Equal integers have equal hash codes, since the hash reads nothing but the bytes. */
  lemma EqualIntegersHashEqually(a: DerInteger, other: Asn1Object, arrayHash: seq<byte> -> int)
    requires Asn1Equals(a, other)
    ensures a.Asn1GetHashCode(arrayHash) == other.integer.Asn1GetHashCode(arrayHash)
  {
  }

  /** new DerInteger(v).Value == v, and the stored bytes are DER's minimal form. */
  lemma IntegerRoundTrip(v: int)
    ensures FromBigInteger(Some(v)).value.Value() == Success(v)
    ensures var b := FromBigInteger(Some(v)).value.bytes;
      |b| >= 2 ==> !(b[0] == 0 && b[1] < 128) && !(b[0] == 255 && b[1] >= 128)
  {
    TwosComplementMinimal(v);
  }

  /** PositiveValue never goes below zero and agrees with Value whenever Value is not negative. */
  lemma PositiveValueAgrees(i: DerInteger)
    requires i.Value().Success? && i.Value().value >= 0
    ensures i.PositiveValue() == i.Value().value
  {
    SignedNonNegativeIsUnsigned(i.bytes);
  }

  /** For a negative value, PositiveValue adds 256^n: the bytes are read without their sign. */
  lemma PositiveValueOfNegative(i: DerInteger)
    requires i.Value().Success? && i.Value().value < 0
    ensures i.PositiveValue() == i.Value().value + Pow(256, |i.bytes|)
  {
  }

  // DER type-length-value framing (X.690 section 8.1)

  /** The DER length octets: short form below 128, otherwise 0x80 | k followed by k big-endian bytes. */
  function EncodeLength(n: nat): (r: seq<byte>)
    requires n < MaxArrayLength
    ensures 1 <= |r| <= 5
  {
    if n < 128 then [n]
    else
      var len := MinimalUnsigned(n);
      assert |len| <= 4 by {
        assert Pow(256, 4) == 0x1_0000_0000;
        MinimalUnsignedLength(n, 4);
      }
      [0x80 + |len|] + len
  }

  function EncodeTlv(tag: byte, content: seq<byte>): (r: seq<byte>)
    requires |content| < MaxArrayLength
  {
    [tag] + EncodeLength(|content|) + content
  }

  /** Reads one TLV back: the tag, the content and what follows it. */
  function ParseTlv(s: seq<byte>): Option<(byte, seq<byte>, seq<byte>)>
  {
    if |s| < 2 then None
    else if s[1] < 128 then
      if 2 + s[1] <= |s| then Some((s[0], s[2..2 + s[1]], s[2 + s[1]..])) else None
    else
      var k := s[1] - 128;
      if 2 + k > |s| then None
      else
        var n := Unsigned(s[2..2 + k]);
        if 2 + k + n <= |s| then Some((s[0], s[2 + k..2 + k + n], s[2 + k + n..])) else None
  }

  lemma ParseEncodeTlv(tag: byte, content: seq<byte>, rest: seq<byte>)
    requires |content| < MaxArrayLength
    ensures ParseTlv(EncodeTlv(tag, content) + rest) == Some((tag, content, rest))
  {
    var s := EncodeTlv(tag, content) + rest;
    if |content| < 128 {
      ShortLayout(tag, content, rest);
      ParseShortForm(s, tag, content, rest);
    } else {
      var len := LongLayout(tag, content, rest);
      ParseLongForm(s, tag, len, content, rest);
    }
  }

  lemma ShortLayout(tag: byte, content: seq<byte>, rest: seq<byte>)
    requires |content| < 128
    ensures EncodeTlv(tag, content) + rest == [tag, |content|] + content + rest
  {
  }

  lemma LongLayout(tag: byte, content: seq<byte>, rest: seq<byte>) returns (len: seq<byte>)
    requires 128 <= |content| < MaxArrayLength
    ensures |len| <= 4 && Unsigned(len) == |content|
    ensures EncodeTlv(tag, content) + rest == [tag, 0x80 + |len|] + len + content + rest
  {
    len := MinimalUnsigned(|content|);
    assert |len| <= 4 by {
      assert Pow(256, 4) == 0x1_0000_0000;
      MinimalUnsignedLength(|content|, 4);
    }
  }

  lemma ParseShortForm(s: seq<byte>, tag: byte, content: seq<byte>, rest: seq<byte>)
    requires |content| < 128 && s == [tag, |content|] + content + rest
    ensures ParseTlv(s) == Some((tag, content, rest))
  {
    var n := |content|;
    assert s[2..2 + n] == content;
    assert s[2 + n..] == rest;
  }

  lemma ParseLongForm(s: seq<byte>, tag: byte, len: seq<byte>, content: seq<byte>, rest: seq<byte>)
    requires |len| <= 4 && Unsigned(len) == |content|
    requires s == [tag, 0x80 + |len|] + len + content + rest
    ensures ParseTlv(s) == Some((tag, content, rest))
  {
    var k, n := |len|, |content|;
    assert s[2..2 + k] == len;
    assert s[2 + k..2 + k + n] == content;
    assert s[2 + k + n..] == rest;
  }

  /** DER INTEGER encoding reads back to its tag and its stored bytes. */
  lemma DecodeIntegerEncoding(i: DerInteger)
    requires |i.bytes| < MaxArrayLength
    ensures ParseTlv(i.Encode()) == Some((IntegerTag, i.bytes, []))
  {
    ParseEncodeTlv(IntegerTag, i.bytes, []);
    assert i.Encode() + [] == i.Encode();
  }
}
