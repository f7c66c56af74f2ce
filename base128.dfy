/**
 * Base-128 subidentifiers of an OBJECT IDENTIFIER body (section 8.19.2 of ITU-T X.690): big-endian
 * groups of seven bits, the continuation bit 0x80 set on every byte but the last, no leading 0x80.
 * Both WriteField overloads of NTumbleBit/BouncyCastle/asn1/DerObjectIdentifier.cs write this form.
 */
module Base128 {
  import opened Numeric
  import opened Bytes

  /** Largest value of a C# long. */
  const LongMax: nat := 0x7fff_ffff_ffff_ffff

  /** The base-128 digits of w > 0, most significant first, every one with the continuation bit set. */
  function Continued(w: nat): (r: seq<byte>)
    ensures |r| >= 1
  {
    if w < 128 then [w + 128] else Continued(w / 128) + [w % 128 + 128]
  }

  lemma {:induction false} ContinuedForm(w: nat)
    ensures forall i :: 0 <= i < |Continued(w)| ==> Continued(w)[i] >= 0x80
    ensures w > 0 ==> Continued(w)[0] != 0x80
  {
    if w >= 128 {
      ContinuedForm(w / 128);
    }
  }

  /** The subidentifier encoding of v. */
  function Subidentifier(v: nat): (r: seq<byte>)
    ensures |r| >= 1
  {
    if v < 128 then [v] else Continued(v / 128) + [v % 128]
  }

  /**
   * The form section 8.19.2 of X.690 prescribes: the continuation bit on every byte but the last, no
   * leading 0x80 (the encoding is minimal), and zero written as the single byte 0x00.
   */
  lemma SubidentifierForm(v: nat)
    ensures var r := Subidentifier(v);
      && r[|r| - 1] < 0x80
      && (forall i :: 0 <= i < |r| - 1 ==> r[i] >= 0x80)
      && (|r| > 1 ==> r[0] != 0x80)
      && (r == [0] <==> v == 0)
  {
    if v >= 128 {
      ContinuedForm(v / 128);
    }
  }

  /** Reads base-128 digits (the low seven bits of each byte), most significant first. */
  function Unsigned128(s: seq<byte>): nat
  {
    if |s| == 0 then 0 else Unsigned128(s[..|s| - 1]) * 128 + s[|s| - 1] % 128
  }

  lemma {:induction false} ContinuedDecodes(w: nat)
    ensures Unsigned128(Continued(w)) == w
  {
    var r := Continued(w);
    if w >= 128 {
      ContinuedDecodes(w / 128);
      assert r[..|r| - 1] == Continued(w / 128);
    }
  }

  /** Every subidentifier decodes back to the value written. */
  lemma SubidentifierDecodes(v: nat)
    ensures Unsigned128(Subidentifier(v)) == v
  {
    var r := Subidentifier(v);
    if v >= 128 {
      ContinuedDecodes(v / 128);
      assert r[..|r| - 1] == Continued(v / 128);
    }
  }

  /** The bytes before the last one of Subidentifier(v). */
  function Leading(v: nat): seq<byte>
  {
    if v < 128 then [] else Continued(v / 128)
  }

  lemma LeadingStep(v: nat, tail: seq<byte>)
    requires v >= 128
    ensures Leading(v) + tail == Leading(v / 128) + ([v / 128 % 128 + 128] + tail)
    ensures |Leading(v)| >= 1
  {
  }

  lemma LeadingLast(v: nat)
    ensures Subidentifier(v) == Leading(v) + [v % 128]
  {
  }

  /** The k lowest base-128 digits of v, most significant first, every one with the continuation bit set. */
  function Flagged(v: nat, k: nat): (r: seq<byte>)
    ensures |r| == k
  {
    if k == 0 then [] else Flagged(v / 128, k - 1) + [v % 128 + 128]
  }

  lemma MulLeft(b: nat, x: int, y: int)
    requires x <= y
    ensures b * x <= b * y
  {
    assert b * y - b * x == b * (y - x);
  }

  lemma DivLess(a: nat, b: nat, c: nat)
    requires b > 0 && a < b * c
    ensures a / b < c
  {
    var q := a / b;
    assert a == b * q + a % b;
    if q >= c {
      MulLeft(b, c, q);
    }
  }

  lemma DivAtLeast(a: nat, b: nat, c: nat)
    requires b > 0 && a >= b * c
    ensures a / b >= c
  {
    var q := a / b;
    assert a == b * q + a % b;
    if q < c {
      assert b * (q + 1) == b * q + b;
      MulLeft(b, q + 1, c);
    }
  }

  lemma DivUnique(a: nat, d: nat, q: nat, r: nat)
    requires d > 0 && a == d * q + r && r < d
    ensures a / d == q
  {
    var q', r' := a / d, a % d;
    assert d * (q - q') == r' - r;
    MulAwayFromZero(d, q - q');
  }

  lemma MulAwayFromZero(d: int, k: int)
    requires d >= 0
    ensures k == 0 || d * k >= d || d * k <= -d
  {
    if k > 0 {
      MulLeft(d, 1, k);
    } else if k < 0 {
      MulLeft(d, k, -1);
    }
  }

  lemma DivDiv(a: nat, b: nat, c: nat)
    requires b > 0 && c > 0
    ensures a / b / c == a / (b * c)
  {
    MulLeft(b, 1, c);
    var q, r := DivMod(a, b * c);
    var r1, r0 := DivMod(r, b);
    DivLess(r, b, c);
    DivDivCombine(a, b, c, q, r, r1, r0);
    DivUnique(a, b, c * q + r1, r0);
    DivUnique(c * q + r1, c, q, r1);
  }

  /** The quotient and remainder of a by d, with the identity that ties them to a. */
  lemma DivMod(a: nat, d: nat) returns (q: nat, r: nat)
    requires d > 0
    ensures q == a / d && r == a % d && a == d * q + r && r < d
  {
    q, r := a / d, a % d;
  }

  lemma DivDivCombine(a: int, b: int, c: int, q: int, r: int, r1: int, r0: int)
    requires a == (b * c) * q + r && r == b * r1 + r0
    ensures a == b * (c * q + r1) + r0
  {
    assert (b * c) * q == b * (c * q);
    assert b * (c * q + r1) == b * (c * q) + b * r1;
  }

  lemma {:induction false} FlaggedPrepend(v: nat, k: nat)
    ensures Flagged(v, k + 1) == [v / Pow(128, k) % 128 + 128] + Flagged(v, k)
  {
    if k > 0 {
      FlaggedPrepend(v / 128, k - 1);
      DivDiv(v, 128, Pow(128, k - 1));
    }
  }

  /** One more digit of the BigInteger WriteField loop. */
  lemma FlaggedStep(v: nat, k: nat)
    ensures [v / Pow(128, k) % 128 + 128] + Flagged(v, k) == Flagged(v, k + 1)
    ensures v / Pow(128, k) / 128 == v / Pow(128, k + 1)
  {
    FlaggedPrepend(v, k);
    DivDiv(v, Pow(128, k), 128);
    assert Pow(128, k + 1) == Pow(128, k) * 128;
  }

  lemma {:induction false} ContinuedIsFlagged(w: nat, m: nat)
    requires m >= 1 && Pow(128, m - 1) <= w < Pow(128, m)
    ensures Continued(w) == Flagged(w, m)
  {
    if w < 128 {
    } else {
      if m == 1 {
        assert false;
      }
      DivLess(w, 128, Pow(128, m - 1));
      DivAtLeast(w, 128, Pow(128, m - 2));
      ContinuedIsFlagged(w / 128, m - 1);
    }
  }

  lemma {:induction false} Pow128IsPow2(k: nat)
    ensures Pow(128, k) == Pow(2, 7 * k)
  {
    if k > 0 {
      Pow128IsPow2(k - 1);
      PowAdd(2, 7, 7 * (k - 1));
      assert 7 * k == 7 + 7 * (k - 1);
    }
  }

  /** (BitLength(v) + 6) / 7 is the number of base-128 digits of v. */
  lemma DigitCount(v: nat)
    requires v > 0
    ensures var n := (BitLength(v) + 6) / 7;
      n >= 1 && Pow(128, n - 1) <= v < Pow(128, n)
  {
    var b := BitLength(v);
    var n := (b + 6) / 7;
    Pow128IsPow2(n);
    Pow128IsPow2(n - 1);
    PowMonotone(2, 7 * (n - 1), b - 1);
    PowMonotone(2, b, 7 * n);
  }

  /** The bytes the BigInteger WriteField writes when the value has n base-128 digits. */
  lemma SubidentifierFromFlagged(v: nat, n: nat)
    requires n >= 1 && Pow(128, n - 1) <= v < Pow(128, n)
    ensures Subidentifier(v) == Flagged(v, n)[..n - 1] + [v % 128]
  {
    if v < 128 {
    } else {
      if n == 1 {
        assert false;
      }
      DivLess(v, 128, Pow(128, n - 1));
      DivAtLeast(v, 128, Pow(128, n - 2));
      ContinuedIsFlagged(v / 128, n - 1);
    }
  }

  /** The last step of the BigInteger WriteField: clearing the continuation bit of the last byte. */
  lemma ClearLastFlag(v: nat, n: nat)
    requires n == (BitLength(v) + 6) / 7 && n >= 1
    ensures Flagged(v, n)[n - 1] % 128 == v % 128
    ensures Flagged(v, n)[n - 1 := v % 128] == Subidentifier(v)
  {
    DigitCount(v);
    ClearLastFlagOfDigits(v, n);
  }

  lemma ClearLastFlagOfDigits(v: nat, n: nat)
    requires n >= 1 && Pow(128, n - 1) <= v < Pow(128, n)
    ensures Flagged(v, n)[n - 1] % 128 == v % 128
    ensures Flagged(v, n)[n - 1 := v % 128] == Subidentifier(v)
  {
    SubidentifierFromFlagged(v, n);
    assert Flagged(v, n) == Flagged(v / 128, n - 1) + [v % 128 + 128];
    assert Flagged(v, n)[n - 1 := v % 128] == Flagged(v, n)[..n - 1] + [v % 128];
  }

  lemma LongFitsNineDigits()
    ensures LongMax < Pow(128, 9)
  {
    assert Pow(128, 1) == 0x80;
    assert Pow(128, 2) == 0x4000;
    assert Pow(128, 3) == 0x20_0000;
    assert Pow(128, 4) == 0x1000_0000;
    assert Pow(128, 5) == 0x8_0000_0000;
    assert Pow(128, 6) == 0x400_0000_0000;
    assert Pow(128, 7) == 0x2_0000_0000_0000;
    assert Pow(128, 8) == 0x100_0000_0000_0000;
    assert Pow(128, 9) == 0x8000_0000_0000_0000;
  }

  lemma {:induction false} ContinuedLength(w: nat, k: nat)
    requires k >= 1 && w < Pow(128, k)
    ensures |Continued(w)| <= k
  {
    if w >= 128 {
      if k == 1 {
        assert false;
      }
      DivLess(w, 128, Pow(128, k - 1));
      ContinuedLength(w / 128, k - 1);
    }
  }

  /** A long needs at most nine subidentifier bytes. */
  lemma LongSubidentifierLength(v: nat)
    requires v <= LongMax
    ensures |Subidentifier(v)| <= 9
  {
    if v >= 128 {
      LongFitsNineDigits();
      DivLess(v, 128, Pow(128, 8));
      ContinuedLength(v / 128, 8);
    }
  }

  /** WriteField(Stream, long): fills a nine-byte buffer from the end and writes its used tail. */
  method WriteFieldLong(fieldValue: nat) returns (written: seq<byte>)
    requires fieldValue <= LongMax
    ensures written == Subidentifier(fieldValue)
  {
    var result := new byte[9];
    var pos := 8;
    var v: nat := fieldValue;
    result[pos] := v % 128;
    LongSubidentifierLength(fieldValue);
    LeadingLast(fieldValue);
    ghost var target := Subidentifier(fieldValue);
    ghost var done: seq<byte> := [fieldValue % 128];
    while v >= 128
      invariant 0 <= pos <= 8
      invariant result[pos..] == done
      invariant target == Leading(v) + done
    {
      LeadingStep(v, done);
      v := v / 128;
      var digit: byte := v % 128 + 128;
      pos := pos - 1;
      result[pos] := digit;
      done := [digit] + done;
    }
    written := result[pos..];
  }

  /** Writes a byte just before the filled tail of the buffer. */
  method PutBefore(buffer: array<byte>, i: nat, b: byte, ghost tail: seq<byte>)
    requires i < buffer.Length && buffer[i + 1..] == tail
    modifies buffer
    ensures buffer[i..] == [b] + tail
  {
    buffer[i] := b;
    assert buffer[i..] == [buffer[i]] + buffer[i + 1..];
  }

  /** Clears the continuation bit of the last byte: the flagged digits become the subidentifier. */
  method ClearLastContinuation(buffer: array<byte>, v: nat)
    requires buffer.Length == (BitLength(v) + 6) / 7 && buffer.Length >= 1
    requires buffer[..] == Flagged(v, buffer.Length)
    modifies buffer
    ensures buffer[..] == Subidentifier(v)
  {
    var n := buffer.Length;
    ClearLastFlag(v, n);
    buffer[n - 1] := buffer[n - 1] % 128;
    assert buffer[..] == Flagged(v, n)[n - 1 := v % 128];
  }

  /** The loop of WriteField(Stream, BigInteger): fills the buffer from the end with flagged digits. */
  method FillFlagged(tmp: array<byte>, fieldValue: nat)
    modifies tmp
    ensures tmp[..] == Flagged(fieldValue, tmp.Length)
  {
    var tmpValue: nat := fieldValue;
    var i := tmp.Length - 1;
    ghost var k: nat := 0;
    ghost var done: seq<byte> := [];
    while i >= 0
      invariant -1 <= i < tmp.Length && k == tmp.Length - 1 - i
      invariant tmp[i + 1..] == done
      invariant done == Flagged(fieldValue, k)
      invariant tmpValue == fieldValue / Pow(128, k)
    {
      FlaggedStep(fieldValue, k);
      var digit: byte := tmpValue % 128 + 128;
      PutBefore(tmp, i, digit, done);
      done := [digit] + done;
      tmpValue := tmpValue / 128;
      i := i - 1;
      k := k + 1;
    }
  }

  /** WriteField(Stream, BigInteger): sizes a buffer from the bit length and fills it from the end. */
  method WriteFieldBig(fieldValue: nat) returns (written: seq<byte>)
    ensures written == Subidentifier(fieldValue)
  {
    var byteCount := (BitLength(fieldValue) + 6) / 7;
    if byteCount == 0 {
      written := [0];
    } else {
      var tmp := new byte[byteCount];
      FillFlagged(tmp, fieldValue);
      ClearLastContinuation(tmp, fieldValue);
      written := tmp[..];
    }
  }
}
