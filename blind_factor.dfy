/** A blinding factor (NTumbleBit/BlindFactor.cs): a non-negative number read from and written as bytes. */
module Blinding {
  import opened Wrappers
  import opened Numeric
  import opened Bytes

  datatype BlindFactor = BlindFactor(value: nat) {
    /** ToBytes: the shortest unsigned big-endian form (no bytes for zero). */
    function ToBytes(): (r: seq<byte>)
      ensures Unsigned(r) == value
      ensures |r| == 0 || r[0] != 0
    {
      MinimalUnsigned(value)
    }
  }

  /** The public constructor: rejects null, else the unsigned big-endian reading of the bytes. */
  function FromBytes(v: Option<seq<byte>>): (r: Result<BlindFactor, string>)
    ensures v.None? <==> r.Failure?
    ensures r.Failure? ==> r.error == "v"
    ensures v.Some? ==> r.value.value == Unsigned(v.value) && r.value.value < Pow(256, |v.value|)
  {
    match v
    case None => Failure("v")
    case Some(bytes) =>
      UnsignedBound(bytes);
      Success(BlindFactor(Unsigned(bytes)))
  }

  /** The internal constructor: rejects null, else keeps the value. */
  function FromValue(v: Option<nat>): (r: Result<BlindFactor, string>)
    ensures v.None? <==> r.Failure?
    ensures r.Failure? ==> r.error == "v"
    ensures v.Some? ==> r.value.value == v.value
  {
    match v
    case None => Failure("v")
    case Some(n) => Success(BlindFactor(n))
  }

  /** new BlindFactor(b).ToBytes() is b without its leading zero bytes. */
  lemma ToBytesStripsZeros(b: seq<byte>)
    ensures FromBytes(Some(b)).value.ToBytes() == StripLeadingZeros(b)
  {
    MinimalOfUnsignedStrips(b);
  }

  /** Reading ToBytes back gives the same factor. */
  lemma ToBytesRoundTrip(f: BlindFactor)
    ensures FromBytes(Some(f.ToBytes())) == Success(f)
  {
  }
}
