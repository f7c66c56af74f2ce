/**
 * The PKCS #1 RSAPublicKey structure (NTumbleBit/BouncyCastle/asn1/pkcs/RSAPublicKeyStructure.cs):
 * SEQUENCE { modulus INTEGER, publicExponent INTEGER }, as in appendix A.1.1 of RFC 8017.
 */
module RsaPublicKey {
  import opened Wrappers
  import opened Numeric
  import opened Bytes
  import opened Asn1

  /** A modulus and a public exponent; neither constructor can produce a negative one. */
  datatype RsaPublicKeyStructure = RsaPublicKeyStructure(modulus: nat, publicExponent: nat) {

    /** ToAsn1Object: a sequence of the modulus then the exponent, each as a DER INTEGER. */
    function ToAsn1Object(): (r: Asn1Object)
      ensures r.Sequence? && |r.elements| == 2
      ensures r.elements[0].Integer? && r.elements[0].integer.Value() == Success(modulus as int)
      ensures r.elements[1].Integer? && r.elements[1].integer.Value() == Success(publicExponent as int)
    {
      Sequence([Integer(FromBigInteger(Some(modulus)).value), Integer(FromBigInteger(Some(publicExponent)).value)])
    }
  }

  /** What GetInstance may be handed: null, a structure already, or some ASN.1 object. */
  datatype KeyInput = StructureInput(structure: RsaPublicKeyStructure) | ObjectInput(obj: Asn1Object)

  /** The public constructor: null arguments, then non-positive values, are rejected in that order. */
  function Create(modulus: Option<int>, publicExponent: Option<int>): (r: Result<RsaPublicKeyStructure, Asn1Error>)
    ensures modulus.None? ==> r == Failure(ArgumentNull("modulus"))
    ensures modulus.Some? && publicExponent.None? ==> r == Failure(ArgumentNull("publicExponent"))
    ensures r.Success? <==> modulus.Some? && publicExponent.Some? && modulus.value > 0 && publicExponent.value > 0
    ensures r.Success? ==> r.value.modulus == modulus.value && r.value.publicExponent == publicExponent.value
    ensures modulus.Some? && publicExponent.Some? && modulus.value <= 0 ==>
      r == Failure(InvalidValue("Not a valid RSA modulus"))
    ensures modulus.Some? && publicExponent.Some? && modulus.value > 0 && publicExponent.value <= 0 ==>
      r == Failure(InvalidValue("Not a valid RSA public exponent"))
  {
    if modulus.None? then Failure(ArgumentNull("modulus"))
    else if publicExponent.None? then Failure(ArgumentNull("publicExponent"))
    else if modulus.value <= 0 then Failure(InvalidValue("Not a valid RSA modulus"))
    else if publicExponent.value <= 0 then Failure(InvalidValue("Not a valid RSA public exponent"))
    else Success(RsaPublicKeyStructure(modulus.value, publicExponent.value))
  }

  /**
   * The sequence constructor: exactly two elements, each a DER INTEGER, read without their sign
   * (negative encodings are accepted and come out positive).
   */
  function FromSequence(elements: seq<Asn1Object>): (r: Result<RsaPublicKeyStructure, Asn1Error>)
    ensures |elements| != 2 ==> r == Failure(BadSequenceSize(|elements|))
    ensures r.Success? <==> |elements| == 2 && elements[0].Integer? && elements[1].Integer?
    ensures r.Success? ==>
      r.value == RsaPublicKeyStructure(elements[0].integer.PositiveValue(), elements[1].integer.PositiveValue())
  {
    if |elements| != 2 then Failure(BadSequenceSize(|elements|))
    else
      var m :- GetInstance(Some(elements[0]));
      var e :- GetInstance(Some(elements[1]));
      Success(RsaPublicKeyStructure(m.value.PositiveValue(), e.value.PositiveValue()))
  }

  /** GetInstance: null and structures pass through, sequences are parsed, anything else is rejected. */
  function GetKeyInstance(obj: Option<KeyInput>): (r: Result<Option<RsaPublicKeyStructure>, Asn1Error>)
    ensures obj.None? ==> r == Success(None)
    ensures obj.Some? && obj.value.StructureInput? ==> r == Success(Some(obj.value.structure))
    ensures obj.Some? && obj.value.ObjectInput? && obj.value.obj.Sequence? ==>
      match FromSequence(obj.value.obj.elements)
      case Success(k) => r == Success(Some(k))
      case Failure(e) => r == Failure(e)
    ensures obj.Some? && obj.value.ObjectInput? && !obj.value.obj.Sequence? ==>
      r == Failure(IllegalObject("Invalid RsaPublicKeyStructure: " + TypeName(obj.value.obj)))
  {
    match obj
    case None => Success(None)
    case Some(StructureInput(k)) => Success(Some(k))
    case Some(ObjectInput(Sequence(elements))) =>
      var k :- FromSequence(elements);
      Success(Some(k))
    case Some(ObjectInput(o)) => Failure(IllegalObject("Invalid RsaPublicKeyStructure: " + TypeName(o)))
  }

  /** Reading back what ToAsn1Object writes gives the same modulus and exponent. */
  lemma ParseToAsn1Object(k: RsaPublicKeyStructure)
    ensures GetKeyInstance(Some(ObjectInput(k.ToAsn1Object()))) == Success(Some(k))
  {
    var elements := k.ToAsn1Object().elements;
    PositiveValueAgrees(elements[0].integer);
    PositiveValueAgrees(elements[1].integer);
  }

  /** A key that the public constructor accepts reads back as itself. */
  lemma CreateRoundTrip(modulus: int, publicExponent: int)
    requires modulus > 0 && publicExponent > 0
    ensures var k := Create(Some(modulus), Some(publicExponent));
      k.Success? && GetKeyInstance(Some(ObjectInput(k.value.ToAsn1Object()))) == Success(Some(k.value))
  {
    ParseToAsn1Object(RsaPublicKeyStructure(modulus, publicExponent));
  }

  /** A negative INTEGER in the sequence is read as its unsigned bytes: the model never yields a negative value. */
  lemma NegativeEncodingsReadPositive(elements: seq<Asn1Object>)
    requires |elements| == 2 && elements[0].Integer? && elements[1].Integer?
    requires elements[0].integer.Value().Success? && elements[0].integer.Value().value < 0
    ensures FromSequence(elements).Success?
    ensures FromSequence(elements).value.modulus ==
      elements[0].integer.Value().value + Pow(256, |elements[0].integer.bytes|)
  {
    PositiveValueOfNegative(elements[0].integer);
  }
}
