/** Byte strings and the integer readings BouncyCastle's BigInteger gives them. */
module Bytes {
  import opened Numeric

  type byte = x: int | 0 <= x < 256

  function Zeros(n: nat): (r: seq<byte>)
    ensures |r| == n && forall i :: 0 <= i < n ==> r[i] == 0
  {
    seq(n, _ => 0)
  }

  /** The unsigned big-endian value of a byte string (new BigInteger(1, bytes)); empty reads as zero. */
  function Unsigned(s: seq<byte>): nat
  {
    if |s| == 0 then 0 else Unsigned(s[..|s| - 1]) * 256 + s[|s| - 1]
  }

  lemma {:induction false} UnsignedBound(s: seq<byte>)
    ensures Unsigned(s) < Pow(256, |s|)
  {
    if |s| > 0 {
      UnsignedBound(s[..|s| - 1]);
      assert Pow(256, |s|) == 256 * Pow(256, |s| - 1);
    }
  }

  lemma UnsignedAppend(s: seq<byte>, b: byte)
    ensures Unsigned(s + [b]) == Unsigned(s) * 256 + b
  {
    assert (s + [b])[..|s|] == s;
  }

  /** A leading zero byte does not change the unsigned value. */
  lemma {:induction false} UnsignedLeadingZero(s: seq<byte>)
    ensures Unsigned([0] + s) == Unsigned(s)
  {
    if |s| > 0 {
      var init := s[..|s| - 1];
      UnsignedLeadingZero(init);
      assert ([0] + s)[..|s|] == [0] + init;
    }
  }

  lemma {:induction false} UnsignedZeros(n: nat, s: seq<byte>)
    ensures Unsigned(Zeros(n) + s) == Unsigned(s)
  {
    if n == 0 {
      assert Zeros(0) + s == s;
    } else {
      var rest := Zeros(n - 1) + s;
      UnsignedZeros(n - 1, s);
      assert Zeros(n) + s == [0] + rest;
      UnsignedLeadingZero(rest);
      calc {
        Unsigned(Zeros(n) + s);
        Unsigned([0] + rest);
        Unsigned(rest);
        Unsigned(s);
      }
    }
  }

  /** Only all-zero strings read as zero. */
  lemma {:induction false} UnsignedZeroOnlyForZeros(s: seq<byte>)
    requires Unsigned(s) == 0
    ensures forall i :: 0 <= i < |s| ==> s[i] == 0
  {
    if |s| > 0 {
      UnsignedZeroOnlyForZeros(s[..|s| - 1]);
      assert forall i :: 0 <= i < |s| - 1 ==> s[i] == s[..|s| - 1][i];
    }
  }

  /** A string whose first byte is not zero has at least |s| - 1 full bytes of magnitude. */
  lemma {:induction false} UnsignedLowerBound(s: seq<byte>)
    requires |s| > 0
    ensures Unsigned(s) >= s[0] * Pow(256, |s| - 1)
  {
    if |s| > 1 {
      UnsignedLowerBound(s[..|s| - 1]);
      assert s[..|s| - 1][0] == s[0];
      assert Pow(256, |s| - 1) == 256 * Pow(256, |s| - 2);
    }
  }

  /** A string is below (first byte + 1) * 256^(|s|-1). */
  lemma {:induction false} UnsignedUpperBound(s: seq<byte>)
    requires |s| > 0
    ensures Unsigned(s) < (s[0] + 1) * Pow(256, |s| - 1)
  {
    if |s| > 1 {
      var init := s[..|s| - 1];
      UnsignedUpperBound(init);
      assert init[0] == s[0];
      assert Pow(256, |s| - 1) == 256 * Pow(256, |s| - 2);
      assert Unsigned(s) == Unsigned(init) * 256 + s[|s| - 1];
      assert Unsigned(init) <= (s[0] + 1) * Pow(256, |s| - 2) - 1;
    } else {
      assert s[..0] == [];
    }
  }

  /** BigInteger.ToByteArrayUnsigned: the shortest unsigned big-endian form; zero has no bytes. */
  function MinimalUnsigned(n: nat): (r: seq<byte>)
    ensures Unsigned(r) == n
    ensures |r| == 0 || r[0] != 0
  {
    if n == 0 then []
    else
      var r := MinimalUnsigned(n / 256) + [n % 256];
      UnsignedAppend(MinimalUnsigned(n / 256), n % 256);
      r
  }

  /** The string with its leading zero bytes removed. */
  function StripLeadingZeros(s: seq<byte>): (r: seq<byte>)
    ensures |r| <= |s| && r == s[|s| - |r|..]
    ensures |r| == 0 || r[0] != 0
    ensures forall i :: 0 <= i < |s| - |r| ==> s[i] == 0
  {
    if |s| > 0 && s[0] == 0 then StripLeadingZeros(s[1..]) else s
  }

  lemma StripKeepsValue(s: seq<byte>)
    ensures Unsigned(StripLeadingZeros(s)) == Unsigned(s)
  {
    var r := StripLeadingZeros(s);
    var k := |s| - |r|;
    assert s == Zeros(k) + r;
    UnsignedZeros(k, r);
  }

  /** A string without leading zeros is the minimal form of its own value. */
  lemma {:induction false} MinimalOfUnsigned(t: seq<byte>)
    requires |t| == 0 || t[0] != 0
    ensures MinimalUnsigned(Unsigned(t)) == t
  {
    if |t| > 0 {
      var init, last := t[..|t| - 1], t[|t| - 1];
      UnsignedLowerBound(t);
      assert Unsigned(t) > 0;
      assert Unsigned(t) / 256 == Unsigned(init) && Unsigned(t) % 256 == last;
      if |init| > 0 {
        assert init[0] == t[0];
      }
      MinimalOfUnsigned(init);
    }
  }

  /** new BigInteger(1, b).ToByteArrayUnsigned() is b with its leading zeros stripped. */
  lemma MinimalOfUnsignedStrips(s: seq<byte>)
    ensures MinimalUnsigned(Unsigned(s)) == StripLeadingZeros(s)
  {
    StripKeepsValue(s);
    MinimalOfUnsigned(StripLeadingZeros(s));
  }

  /** The minimal form of a value below 256^k has at most k bytes. */
  lemma {:induction false} MinimalUnsignedLength(n: nat, k: nat)
    requires n < Pow(256, k)
    ensures |MinimalUnsigned(n)| <= k
  {
    if n > 0 {
      assert k > 0;
      assert Pow(256, k) == 256 * Pow(256, k - 1);
      MinimalUnsignedLength(n / 256, k - 1);
    }
  }

  lemma MulAtLeastOne(a: int, p: int)
    requires a >= 1 && p > 0
    ensures a * p >= p
  {
  }

  lemma UnsignedBitLength(r: seq<byte>)
    requires |r| > 0 && r[0] != 0
    ensures (BitLength(Unsigned(r)) + 7) / 8 == |r|
  {
    var n, k := Unsigned(r), |r|;
    var lo, hi := Pow(256, k - 1), Pow(256, k);
    UnsignedBound(r);
    UnsignedLowerBound(r);
    MulAtLeastOne(r[0], lo);
    assert lo <= n < hi;
    Pow256IsPow2(k);
    Pow256IsPow2(k - 1);
    BitLengthBetween(n, 8 * (k - 1), 8 * k);
    var b := BitLength(n);
    assert 8 * (k - 1) < b <= 8 * k;
  }

  /** The byte count of the minimal form is the bit length rounded up to whole bytes. */
  lemma MinimalUnsignedBitLength(n: nat)
    ensures |MinimalUnsigned(n)| == (BitLength(n) + 7) / 8
  {
    if n > 0 {
      var r := MinimalUnsigned(n);
      UnsignedBitLength(r);
    }
  }

  /** Left-pads with zero bytes to length n; longer strings are returned as they are. */
  function LeftPad(s: seq<byte>, n: nat): (r: seq<byte>)
  {
    if |s| < n then Zeros(n - |s|) + s else s
  }

  lemma LeftPadKeepsValue(s: seq<byte>, n: nat)
    ensures Unsigned(LeftPad(s, n)) == Unsigned(s)
    ensures |LeftPad(s, n)| == if |s| < n then n else |s|
  {
    if |s| < n { UnsignedZeros(n - |s|, s); }
  }

  // Two's complement (X.690 section 8.3)

  /** The signed big-endian two's-complement value of a non-empty string (new BigInteger(bytes)). */
  function Signed(s: seq<byte>): int
    requires |s| > 0
  {
    if s[0] >= 128 then Unsigned(s) - Pow(256, |s|) else Unsigned(s)
  }

  lemma SignedAppend(s: seq<byte>, b: byte)
    requires |s| > 0
    ensures Signed(s + [b]) == Signed(s) * 256 + b
  {
    UnsignedAppend(s, b);
    assert (s + [b])[0] == s[0];
    assert Pow(256, |s| + 1) == 256 * Pow(256, |s|);
  }

  /** BigInteger.ToByteArray: the shortest two's-complement form; zero is one zero byte. */
  function TwosComplement(v: int): (r: seq<byte>)
    ensures |r| > 0
    decreases if v >= 0 then v else -v - 1
  {
    if -128 <= v < 128 then [v % 256] else TwosComplement(v / 256) + [v % 256]
  }

  /** Reading the two's-complement form back gives the value (X.690 section 8.3.3). */
  lemma {:induction false} SignedOfTwosComplement(v: int)
    ensures Signed(TwosComplement(v)) == v
    decreases if v >= 0 then v else -v - 1
  {
    if !(-128 <= v < 128) {
      SignedOfTwosComplement(v / 256);
      SignedAppend(TwosComplement(v / 256), v % 256);
      assert v == (v / 256) * 256 + v % 256;
    } else {
      var r := [v % 256];
      assert Unsigned(r) == v % 256 by {
        assert r[..0] == [];
      }
      assert Pow(256, 1) == 256;
    }
  }

  /** The form is minimal: its first nine bits are neither all zero nor all one (X.690 section 8.3.2). */
  lemma {:induction false} TwosComplementMinimal(v: int)
    ensures var r := TwosComplement(v);
      |r| >= 2 ==> !(r[0] == 0 && r[1] < 128) && !(r[0] == 255 && r[1] >= 128)
    decreases if v >= 0 then v else -v - 1
  {
    if !(-128 <= v < 128) {
      var w := v / 256;
      TwosComplementMinimal(w);
      var head := TwosComplement(w);
      var r := TwosComplement(v);
      assert r == head + [v % 256];
      if |head| >= 2 {
        assert r[0] == head[0] && r[1] == head[1];
      } else {
        assert -128 <= w < 128;
        assert r[0] == w % 256 && r[1] == v % 256;
      }
    }
  }

  /** An n-byte two's-complement string holds a value in [-256^n / 2, 256^n / 2). */
  lemma SignedRange(s: seq<byte>)
    requires |s| > 0
    ensures -128 * Pow(256, |s| - 1) <= Signed(s) < 128 * Pow(256, |s| - 1)
  {
    var p := Pow(256, |s| - 1);
    assert Pow(256, |s|) == 256 * p;
    UnsignedUpperBound(s);
    UnsignedLowerBound(s);
    if s[0] >= 128 {
      assert Unsigned(s) >= 128 * p by { MulMonotone(128, s[0], p); }
    } else {
      assert Unsigned(s) < 128 * p by { MulMonotone(s[0] + 1, 128, p); }
    }
  }

  lemma MulMonotone(a: int, b: int, p: int)
    requires a <= b && p >= 0
    ensures a * p <= b * p
  {
  }

  /** A value in the n-byte range has a two's-complement form of at most n bytes. */
  lemma {:induction false} TwosComplementLength(v: int, k: nat)
    requires k >= 1 && -128 * Pow(256, k - 1) <= v < 128 * Pow(256, k - 1)
    ensures |TwosComplement(v)| <= k
    decreases k
  {
    if !(-128 <= v < 128) {
      assert k >= 2;
      assert Pow(256, k - 1) == 256 * Pow(256, k - 2);
      TwosComplementLength(v / 256, k - 1);
    }
  }

  /** A non-negative signed reading equals the unsigned reading of the same bytes. */
  lemma SignedNonNegativeIsUnsigned(s: seq<byte>)
    requires |s| > 0 && Signed(s) >= 0
    ensures Signed(s) == Unsigned(s)
  {
    UnsignedBound(s);
  }

  // Hexadecimal (NBitcoin's ToHex, lower case)

  const HexDigits: string := "0123456789abcdef"

  function ToHex(s: seq<byte>): (r: string)
    ensures |r| == 2 * |s|
  {
    if |s| == 0 then "" else [HexDigits[s[0] / 16], HexDigits[s[0] % 16]] + ToHex(s[1..])
  }

  function HexValue(c: char): int
  {
    if '0' <= c <= '9' then c as int - '0' as int
    else if 'a' <= c <= 'f' then c as int - 'a' as int + 10
    else -1
  }

  function FromHex(h: string): seq<byte>
    requires |h| % 2 == 0
  {
    if |h| == 0 then []
    else
      var hi, lo := HexValue(h[0]), HexValue(h[1]);
      (if 0 <= hi < 16 && 0 <= lo < 16 then [hi * 16 + lo] else [0]) + FromHex(h[2..])
  }

  /** Hex encoding loses nothing, so two coins with different scripts never share an id. */
  lemma {:induction false} FromHexToHex(s: seq<byte>)
    ensures FromHex(ToHex(s)) == s
  {
    if |s| > 0 {
      var b := s[0];
      HexDigitValue(b / 16);
      HexDigitValue(b % 16);
      FromHexCons(ToHex(s), HexDigits[b / 16], HexDigits[b % 16], ToHex(s[1..]));
      FromHexToHex(s[1..]);
      assert s == [b / 16 * 16 + b % 16] + s[1..];
    }
  }

  lemma HexDigitValue(d: nat)
    requires d < 16
    ensures HexValue(HexDigits[d]) == d
  {
  }

  /** Two valid hex digits in front read as one byte in front. */
  lemma FromHexCons(h: string, hi: char, lo: char, tail: string)
    requires h == [hi, lo] + tail && |tail| % 2 == 0
    requires 0 <= HexValue(hi) < 16 && 0 <= HexValue(lo) < 16
    ensures FromHex(h) == [HexValue(hi) * 16 + HexValue(lo)] + FromHex(tail)
  {
    assert h[2..] == tail;
  }

  lemma ToHexInjective(a: seq<byte>, b: seq<byte>)
    requires ToHex(a) == ToHex(b)
    ensures a == b
  {
    FromHexToHex(a);
    FromHexToHex(b);
  }
}
