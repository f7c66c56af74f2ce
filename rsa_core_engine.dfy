/**
 * The basic RSA engine (NTumbleBit/BouncyCastle/crypto/engines/RSACoreEngine.cs): block sizes, the
 * conversions between byte blocks and integers, and exponentiation, with the Chinese Remainder Theorem
 * when the private key carries its factors (section 5.1.2 of RFC 8017, RSADP step 2.b).
 */
module RsaCore {
  import opened Wrappers
  import opened Numeric
  import opened Bytes

  datatype RsaError =
    | InvalidKey(message: string)
    | DataLength(message: string)
    | ModulusNotPositive
    | DivisionByZero

  /** The factors of a private CRT key: p, q, d mod (p - 1), d mod (q - 1) and q^-1 mod p. */
  datatype CrtFactors = CrtFactors(p: nat, q: nat, dP: nat, dQ: nat, qInv: int)

  /** RsaKeyParameters: a modulus and an exponent; a private CRT key also carries its factors. */
  datatype RsaKey = RsaKey(modulus: nat, exponent: nat, crt: Option<CrtFactors>)

  /** The parameters Init may be handed: an RSA key or something else. */
  datatype CipherParameters = RsaKeyParameters(key: RsaKey) | OtherParameters(typeName: string)

  const InputTooLarge: string := "input too large for RSA cipher."

  /**
   * The input block size: when encrypting the whole bytes strictly below the modulus' top bit, so that
   * every block is smaller than the modulus; when decrypting the bytes the modulus takes.
   */
  function InputBlockSize(forEncryption: bool, bitSize: nat): (r: nat)
    ensures forEncryption && bitSize > 0 ==> 8 * r <= bitSize - 1 < 8 * r + 8
    ensures !forEncryption ==> 8 * r >= bitSize > 8 * r - 8
    ensures forEncryption && bitSize == 0 ==> r == 0
  {
    if forEncryption then TruncDiv(bitSize - 1, 8) else (bitSize + 7) / 8
  }

  /** The output block size: the input block size of the opposite direction. */
  function OutputBlockSize(forEncryption: bool, bitSize: nat): (r: nat)
    ensures r == InputBlockSize(!forEncryption, bitSize)
  {
    if forEncryption then (bitSize + 7) / 8 else TruncDiv(bitSize - 1, 8)
  }

  /** BigInteger.ModPow for a non-negative exponent. */
  function ModPow(b: nat, e: nat, m: nat): (r: nat)
    requires m > 0
    ensures r < m
  {
    Pow(b, e) % m
  }

  /** h = (mP - mQ) * qInv mod p, with Mod giving the non-negative residue even when mP < mQ. */
  function CrtH(mP: nat, mQ: nat, qInv: int, p: nat): (h: nat)
    requires p > 0
    ensures h < p
    ensures (h - (mP - mQ) * qInv) % p == 0
  {
    var d := (mP - mQ) * qInv;
    assert d == p * (d / p) + d % p;
    assert d % p - d == p * (-(d / p));
    ModOfMulAdd(p, -(d / p), 0);
    d % p
  }

  /** The Garner recombination m = h * q + mQ of the two half-size results. */
  function CrtRecombine(mP: nat, mQ: nat, qInv: int, p: nat, q: nat): (m: nat)
    requires p > 0 && q > 0 && mP < p && mQ < q
    ensures m < p * q && m % q == mQ
    ensures (qInv * q) % p == 1 % p ==> m % p == mP
  {
    var h := CrtH(mP, mQ, qInv, p);
    CrtRecombineBounds(h, mQ, p, q);
    CrtRecombineModP(mP, mQ, qInv, p, q);
    h * q + mQ
  }

  lemma CrtRecombineBounds(h: nat, mQ: nat, p: nat, q: nat)
    requires h < p && mQ < q && q > 0
    ensures h * q + mQ < p * q && (h * q + mQ) % q == mQ
  {
    MulMonotone(h, p - 1, q);
    assert h * q + mQ == q * h + mQ;
    ModOfMulAdd(q, h, mQ);
  }

  /** With qInv * q = 1 mod p, h * q + mQ is mP modulo p. */
  lemma CrtRecombineModP(mP: nat, mQ: nat, qInv: int, p: nat, q: nat)
    requires p > 0 && mP < p
    ensures (qInv * q) % p == 1 % p ==> (CrtH(mP, mQ, qInv, p) * q + mQ) % p == mP
  {
    if (qInv * q) % p != 1 % p {
      return;
    }
    var h := CrtH(mP, mQ, qInv, p);
    var d := mP - mQ;
    if p == 1 {
      ModOfMulAdd(1, h * q + mQ, 0);
    } else {
      var t := Divides(h - d * qInv, p);
      var s := UnitResidue(qInv * q, p);
      Recombine(h, d, qInv, p, t, q, s);
      AddModulo(h * q, d, p, d * s + t * q, mQ, mP);
    }
  }

  /** A multiple of p, with its quotient. */
  lemma Divides(a: int, p: int) returns (k: int)
    requires p > 0 && a % p == 0
    ensures a == p * k
  {
    k := a / p;
  }

  /** A number that is 1 modulo p > 1 is 1 plus a multiple of p. */
  lemma UnitResidue(a: int, p: int) returns (k: int)
    requires p > 1 && a % p == 1 % p
    ensures a == 1 + p * k
  {
    k := a / p;
    ModOfMulAdd(p, 0, 1);
  }

  lemma AddModulo(x: int, d: int, p: int, k: int, mQ: int, mP: int)
    requires x == d + p * k && d == mP - mQ && 0 <= mP < p
    ensures (x + mQ) % p == mP
  {
    ModOfMulAdd(p, k, mP);
  }

  /** The ring identity behind Garner's formula: h = d * qInv + p * t and qInv * q = 1 + p * s give h * q = d + p * (...). */
  lemma Recombine(h: int, d: int, qInv: int, p: int, t: int, q: int, s: int)
    requires h == d * qInv + p * t && qInv * q == 1 + p * s
    ensures h * q == d + p * (d * s + t * q)
  {
    calc {
      h * q;
      (d * qInv + p * t) * q;
      { assert (d * qInv + p * t) * q == d * qInv * q + p * t * q; }
      d * qInv * q + p * t * q;
      { assert d * qInv * q == d * (qInv * q); }
      d * (1 + p * s) + p * t * q;
      { assert d * (1 + p * s) == d + p * (d * s); }
      d + p * (d * s) + p * (t * q);
      d + p * (d * s + t * q);
    }
  }

  /** RSADP step 2.b: both half exponentiations, then the recombination. */
  function CrtProcess(input: nat, f: CrtFactors): (m: nat)
    requires f.p > 0 && f.q > 0
    ensures m < f.p * f.q && m % f.q == ModPow(input % f.q, f.dQ, f.q)
    ensures (f.qInv * f.q) % f.p == 1 % f.p ==> m % f.p == ModPow(input % f.p, f.dP, f.p)
  {
    var mP := ModPow(input % f.p, f.dP, f.p);
    var mQ := ModPow(input % f.q, f.dQ, f.q);
    CrtRecombine(mP, mQ, f.qInv, f.p, f.q)
  }

  /** output.CopyTo(tmp, tmp.Length - output.Length) into a fresh zero-filled buffer of outSize bytes. */
  method CopyToEnd(output: seq<byte>, outSize: nat) returns (padded: seq<byte>)
    requires |output| < outSize
    ensures padded == LeftPad(output, outSize)
  {
    var tmp := new byte[outSize](_ => 0);
    var offset := outSize - |output|;
    for j := 0 to |output|
      invariant forall k :: 0 <= k < offset ==> tmp[k] == 0
      invariant forall k :: 0 <= k < j ==> tmp[offset + k] == output[k]
    {
      tmp[offset + j] := output[j];
    }
    assert tmp[..] == Zeros(offset) + output;
    padded := tmp[..];
  }

  class RsaCoreEngine {
    var key: Option<RsaKey>
    var forEncryption: bool
    var bitSize: nat

    /** Once a key is set, bitSize is its modulus' bit length. */
    ghost predicate Valid()
      reads this
    {
      key.Some? ==> bitSize == BitLength(key.value.modulus)
    }

    constructor ()
      ensures key.None? && !forEncryption && bitSize == 0 && Valid()
    {
      key := None;
      forEncryption := false;
      bitSize := 0;
    }

    /** Init: rejects parameters that are not an RSA key, else keeps the key, the direction and the bit size. */
    method Init(forEncryption: bool, parameters: CipherParameters) returns (r: Outcome<RsaError>)
      modifies this
      ensures !parameters.RsaKeyParameters? ==> r == Fail(InvalidKey("Not an RSA key")) && unchanged(this)
      ensures parameters.RsaKeyParameters? ==>
        && r == Pass && key == Some(parameters.key) && this.forEncryption == forEncryption
        && bitSize == BitLength(parameters.key.modulus) && Valid()
    {
      if !parameters.RsaKeyParameters? {
        return Fail(InvalidKey("Not an RSA key"));
      }
      key := Some(parameters.key);
      this.forEncryption := forEncryption;
      bitSize := BitLength(parameters.key.modulus);
      r := Pass;
    }

    /** GetInputBlockSize: when encrypting, any block this long is below the modulus; when decrypting, any ciphertext fits. */
    function GetInputBlockSize(): (r: nat)
      reads this
      ensures key.Some? && Valid() && forEncryption && key.value.modulus > 0 ==> BlocksBelow(key.value.modulus, r)
      ensures key.Some? && Valid() && !forEncryption ==> ResiduesFit(key.value.modulus, r)
    {
      if key.Some? then
        BlockSizesFit(key.value.modulus);
        InputBlockSize(forEncryption, bitSize)
      else
        InputBlockSize(forEncryption, bitSize)
    }

    /** GetOutputBlockSize: when encrypting, any ciphertext fits; when decrypting, the plaintext block size. */
    function GetOutputBlockSize(): (r: nat)
      reads this
      ensures key.Some? && Valid() && forEncryption ==> ResiduesFit(key.value.modulus, r)
      ensures key.Some? && Valid() && !forEncryption && key.value.modulus > 0 ==> BlocksBelow(key.value.modulus, r)
    {
      if key.Some? then
        BlockSizesFit(key.value.modulus);
        OutputBlockSize(forEncryption, bitSize)
      else
        OutputBlockSize(forEncryption, bitSize)
    }

    /** ConvertInput: the unsigned value of the block, rejected when the block or the value is too large. */
    function ConvertInput(inBuf: seq<byte>, inOff: nat, inLen: nat): (r: Result<nat, RsaError>)
      reads this
      requires key.Some? && inOff + inLen <= |inBuf|
      ensures r.Success? <==>
        inLen <= (bitSize + 7) / 8 && Unsigned(inBuf[inOff..inOff + inLen]) < key.value.modulus
      ensures r.Success? ==> r.value == Unsigned(inBuf[inOff..inOff + inLen]) && r.value < key.value.modulus
      ensures r.Failure? ==> r == Failure(DataLength(InputTooLarge))
    {
      var maxLength := (bitSize + 7) / 8;
      if inLen > maxLength then Failure(DataLength(InputTooLarge))
      else
        var input := Unsigned(inBuf[inOff..inOff + inLen]);
        if input >= key.value.modulus then Failure(DataLength(InputTooLarge)) else Success(input)
    }

    /**
     * ConvertOutput: the minimal unsigned bytes of the result; when encrypting, shorter forms are copied
     * to the end of a zero-filled buffer of the output block size.
     */
    method ConvertOutput(result: nat) returns (output: seq<byte>)
      ensures forEncryption ==> output == LeftPad(MinimalUnsigned(result), GetOutputBlockSize())
      ensures !forEncryption ==> output == MinimalUnsigned(result)
    {
      output := MinimalUnsigned(result);
      if forEncryption {
        var outSize := GetOutputBlockSize();
        if |output| < outSize {
          output := CopyToEnd(output, outSize);
        }
      }
    }

    /** ProcessBlock: CRT when the key carries its factors, else input^exponent mod modulus. */
    function ProcessBlock(input: nat): (r: Result<nat, RsaError>)
      reads this
      requires key.Some?
      ensures key.value.crt.None? && key.value.modulus > 0 ==>
        r == Success(ModPow(input, key.value.exponent, key.value.modulus))
      ensures key.value.crt.Some? && key.value.crt.value.p > 0 && key.value.crt.value.q > 0 ==>
        r == Success(CrtProcess(input, key.value.crt.value))
      ensures r.Failure? <==> (if key.value.crt.Some? then key.value.crt.value.p == 0 || key.value.crt.value.q == 0
                              else key.value.modulus == 0)
      ensures r == Failure(ModulusNotPositive) <==> key.value.crt.None? && key.value.modulus == 0
      ensures r == Failure(DivisionByZero) <==> key.value.crt.Some? && (key.value.crt.value.p == 0 || key.value.crt.value.q == 0)
    {
      match key.value.crt
      case Some(f) =>
        // A zero factor reaches input.Remainder(p) or input.Remainder(q) before any ModPow.
        if f.p == 0 || f.q == 0 then Failure(DivisionByZero) else Success(CrtProcess(input, f))
      case None =>
        if key.value.modulus == 0 then Failure(ModulusNotPositive)
        else Success(ModPow(input, key.value.exponent, key.value.modulus))
    }
  }

  /** Every block of at most n bytes reads as a value below the modulus. */
  ghost predicate BlocksBelow(modulus: nat, n: nat)
  {
    forall block: seq<byte> :: |block| <= n ==> Unsigned(block) < modulus
  }

  /** Every value below the modulus takes at most n bytes. */
  ghost predicate ResiduesFit(modulus: nat, n: nat)
  {
    forall v: nat :: v < modulus ==> |MinimalUnsigned(v)| <= n
  }

  /** The plaintext block size keeps blocks below a positive modulus; the ciphertext block size holds every residue. */
  lemma BlockSizesFit(modulus: nat)
    ensures modulus > 0 ==> BlocksBelow(modulus, InputBlockSize(true, BitLength(modulus)))
    ensures ResiduesFit(modulus, OutputBlockSize(true, BitLength(modulus)))
  {
    forall block: seq<byte> | |block| <= InputBlockSize(true, BitLength(modulus))
      ensures Unsigned(block) < modulus || modulus == 0
    {
      EncryptionBlocksFit(modulus, block);
    }
    forall v: nat | v < modulus
      ensures |MinimalUnsigned(v)| <= OutputBlockSize(true, BitLength(modulus))
    {
      EncryptionOutputFits(modulus, v);
    }
  }

  /** When encrypting, every block of at most the input block size is smaller than the modulus. */
  lemma EncryptionBlocksFit(modulus: nat, block: seq<byte>)
    requires |block| <= InputBlockSize(true, BitLength(modulus))
    ensures Unsigned(block) < modulus || modulus == 0
  {
    var b := BitLength(modulus);
    if modulus > 0 {
      var k := InputBlockSize(true, b);
      UnsignedBound(block);
      PowMonotone(256, |block|, k);
      Pow256IsPow2(k);
      PowMonotone(2, 8 * k, b - 1);
    }
  }

  /** Any value below the modulus fits the encryption output block, so the padded output has exactly that size. */
  lemma EncryptionOutputFits(modulus: nat, result: nat)
    requires result < modulus
    ensures |MinimalUnsigned(result)| <= OutputBlockSize(true, BitLength(modulus))
    ensures |LeftPad(MinimalUnsigned(result), OutputBlockSize(true, BitLength(modulus)))| ==
      OutputBlockSize(true, BitLength(modulus))
    ensures Unsigned(LeftPad(MinimalUnsigned(result), OutputBlockSize(true, BitLength(modulus)))) == result
  {
    MinimalUnsignedBitLength(result);
    BitLengthMonotone(result, modulus);
    LeftPadKeepsValue(MinimalUnsigned(result), OutputBlockSize(true, BitLength(modulus)));
  }

  /** When decrypting, the output is the shortest unsigned form and reads back as the result. */
  lemma DecryptionOutputValue(result: nat)
    ensures Unsigned(MinimalUnsigned(result)) == result
    ensures |MinimalUnsigned(result)| == (BitLength(result) + 7) / 8
  {
    MinimalUnsignedBitLength(result);
  }
}
