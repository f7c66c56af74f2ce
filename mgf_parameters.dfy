/**
 * Mask generation function parameters (NTumbleBit/BouncyCastle/crypto/parameters/Mfg1Parameters.cs): a seed
 * kept in a buffer of its own, so that neither the caller's array nor the copies handed out can change it.
 */
module Mgf {
  import opened Wrappers
  import opened Bytes

  /**
   * The ways the constructors fail: Array.Copy handed a null array, reading the length of a null array
   * (a null reference), a negative length, or a range outside the array.
   */
  datatype MgfError = NullSeed | NullSeedLength | NegativeLength | OffsetOutOfRange | RangeTooLong

  class MgfParameters {
    const seed: array<byte>

    /** The three-argument constructor once its range is known to lie in the array: a fresh copy of it. */
    constructor (source: array<byte>, off: nat, len: nat)
      requires off + len <= source.Length
      ensures fresh(seed) && seed.Length == len && seed[..] == source[off..off + len]
    {
      var copy := new byte[len](_ => 0);
      for i := 0 to len
        invariant forall k :: 0 <= k < i ==> copy[k] == source[off + k]
      {
        copy[i] := source[off + i];
      }
      seed := copy;
    }

    /** GetSeed: a fresh array holding the stored seed. */
    method GetSeed() returns (s: array<byte>)
      ensures fresh(s) && s[..] == seed[..]
    {
      s := new byte[seed.Length](i reads seed requires 0 <= i < seed.Length => seed[i]);
    }
  }

  /**
   * new MgfParameters(seed, off, len): allocating the buffer fails first for a negative length, then
   * Array.Copy rejects a null array, a negative offset and a range running past the end.
   */
  method Create(source: Option<array<byte>>, off: int, len: int) returns (r: Result<MgfParameters, MgfError>)
    ensures len < 0 ==> r == Failure(NegativeLength)
    ensures len >= 0 && source.None? ==> r == Failure(NullSeed)
    ensures len >= 0 && source.Some? && off < 0 ==> r == Failure(OffsetOutOfRange)
    ensures len >= 0 && source.Some? && off >= 0 && off + len > source.value.Length ==> r == Failure(RangeTooLong)
    ensures len >= 0 && source.Some? && off >= 0 && off + len <= source.value.Length ==>
      && r.Success? && fresh(r.value) && fresh(r.value.seed)
      && r.value.seed[..] == source.value[off..off + len]
  {
    if len < 0 {
      return Failure(NegativeLength);
    }
    if source.None? {
      return Failure(NullSeed);
    }
    if off < 0 {
      return Failure(OffsetOutOfRange);
    }
    if off + len > source.value.Length {
      return Failure(RangeTooLong);
    }
    var p := new MgfParameters(source.value, off, len);
    r := Success(p);
  }

  /** The one-argument constructor: a copy of the whole seed; reading a null seed's length fails. */
  method CreateWhole(source: Option<array<byte>>) returns (r: Result<MgfParameters, MgfError>)
    ensures source.None? ==> r == Failure(NullSeedLength)
    ensures source.Some? ==> r.Success? && fresh(r.value) && fresh(r.value.seed) && r.value.seed[..] == source.value[..]
  {
    if source.None? {
      return Failure(NullSeedLength);
    }
    var p := new MgfParameters(source.value, 0, source.value.Length);
    assert source.value[0..source.value.Length] == source.value[..];
    r := Success(p);
  }

  /** Writing to the caller's array after construction leaves the stored seed as it was copied. */
  method SeedSurvivesSourceWrite(source: array<byte>, off: nat, len: nat, i: nat, b: byte) returns (p: MgfParameters)
    requires off + len <= source.Length && i < source.Length
    modifies source
    ensures p.seed[..] == old(source[off..off + len])
  {
    p := new MgfParameters(source, off, len);
    source[i] := b;
  }

  /** Writing to an array GetSeed handed out leaves the stored seed as it was. */
  method SeedSurvivesCopyWrite(p: MgfParameters, i: nat, b: byte) returns (s: array<byte>)
    requires i < p.seed.Length
    ensures p.seed[..] == old(p.seed[..]) && s.Length == p.seed.Length && s[i] == b
  {
    s := p.GetSeed();
    s[i] := b;
  }
}
