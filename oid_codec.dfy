/**
 * The two directions of the OBJECT IDENTIFIER body (section 8.19 of ITU-T X.690) as specification
 * functions: the subidentifiers DoOutput writes for a dotted identifier, and the text
 * MakeOidStringFromBytes reads back from body bytes (NTumbleBit/BouncyCastle/asn1/DerObjectIdentifier.cs).
 */
module OidCodec {
  import opened Numeric
  import opened Bytes
  import opened Decimal
  import opened OidText
  import opened Base128

  // Encoding: dotted text to subidentifier values to bytes

  /**
   * The subidentifier values of a valid identifier: the first two arcs merged into 40 * first + second
   * (section 8.19.4 of X.690), then one value per later arc.
   */
  function SubidentifierValues(id: string): (vs: seq<nat>)
    requires ValidIdentifier(id)
    ensures |vs| == |Arcs(id)| - 1
  {
    IdentifierArcs(id);
    var a := Arcs(id);
    DigitsAtEveryIndex(a);
    seq(|a| - 1, i requires 0 <= i < |a| - 1 => ArcValue(a, i))
  }

  /** The value of subidentifier i given the arcs a. */
  function ArcValue(a: seq<string>, i: nat): nat
    requires i < |a| - 1 && forall k :: 0 <= k < |a| ==> IsDigits(a[k])
  {
    if i == 0 then ParseDigits(a[0]) * 40 + ParseDigits(a[1]) else ParseDigits(a[i + 1])
  }

  lemma DigitsAtEveryIndex(a: seq<string>)
    requires forall x :: x in a ==> |x| > 0 && IsDigits(x)
    ensures forall k :: 0 <= k < |a| ==> IsDigits(a[k])
  {
  }

  /** The subidentifiers of vs, one after the other. */
  function EncodeSubidentifiers(vs: seq<nat>): seq<byte>
  {
    if |vs| == 0 then [] else EncodeSubidentifiers(vs[..|vs| - 1]) + Subidentifier(vs[|vs| - 1])
  }

  /** The body octets of a valid identifier. */
  function EncodeBody(id: string): seq<byte>
    requires ValidIdentifier(id)
  {
    EncodeSubidentifiers(SubidentifierValues(id))
  }

  // Decoding: the left-to-right scan of MakeOidStringFromBytes

  /**
   * The scan state after a prefix of the body: the value of the unfinished subidentifier already shifted
   * left by seven bits, whether the first subidentifier is still to come, and the text so far.
   */
  datatype DecodeState = DecodeState(shifted: nat, first: bool, text: string)

  const Initial := DecodeState(0, true, "")

  /** The text of the first subidentifier: it splits into the first two arcs. */
  function FirstArcsText(v: nat): string
  {
    if v < 40 then "0." + DecimalString(v)
    else if v < 80 then "1." + DecimalString(v - 40)
    else "2." + DecimalString(v - 80)
  }

  /** A subidentifier of value v ends: its text is appended and nothing is pending. */
  function Finish(st: DecodeState, v: nat): DecodeState
  {
    DecodeState(0, false, st.text + (if st.first then FirstArcsText(v) else "." + DecimalString(v)))
  }

  function DecodeStep(st: DecodeState, b: byte): DecodeState
  {
    var v := st.shifted + b % 128;
    if b < 128 then Finish(st, v) else DecodeState(v * 128, st.first, st.text)
  }

  function DecodeFrom(st: DecodeState, bytes: seq<byte>): DecodeState
  {
    if |bytes| == 0 then st else DecodeStep(DecodeFrom(st, bytes[..|bytes| - 1]), bytes[|bytes| - 1])
  }

  /** The dotted text the scan produces; an unfinished last subidentifier is dropped. */
  function OidStringOfBytes(bytes: seq<byte>): string
  {
    DecodeFrom(Initial, bytes).text
  }

  lemma {:induction false} DecodeFromConcat(st: DecodeState, a: seq<byte>, b: seq<byte>)
    ensures DecodeFrom(st, a + b) == DecodeFrom(DecodeFrom(st, a), b)
  {
    if |b| > 0 {
      DecodeFromConcat(st, a, b[..|b| - 1]);
      assert (a + b)[..|a + b| - 1] == a + b[..|b| - 1];
    } else {
      assert a + b == a;
    }
  }

  /** The scan of one more byte. */
  lemma DecodeSnoc(st: DecodeState, pre: seq<byte>, b: byte)
    ensures DecodeFrom(st, pre + [b]) == DecodeStep(DecodeFrom(st, pre), b)
  {
    var s := pre + [b];
    assert s[..|s| - 1] == pre;
  }

  /** The last digit of w with the continuation bit set completes w and shifts it. */
  lemma ContinuedDigit(f: bool, t: string, w: nat)
    ensures DecodeStep(DecodeState(w / 128 * 128, f, t), w % 128 + 128) == DecodeState(w * 128, f, t)
  {
    var q, r := DivMod(w, 128);
    assert (r + 128) % 128 == r;
    assert q * 128 + r == w;
  }

  /** The last digit of v without the continuation bit finishes v. */
  lemma FinalDigit(f: bool, t: string, v: nat)
    ensures DecodeStep(DecodeState(v / 128 * 128, f, t), v % 128) == Finish(DecodeState(0, f, t), v)
  {
    var q, r := DivMod(v, 128);
    assert r % 128 == r;
    assert q * 128 + r == v;
  }

  /** The scan of a text that ends in byte b, given the state before b and what b does to it. */
  lemma DecodeVia(st: DecodeState, s: seq<byte>, pre: seq<byte>, b: byte, mid: DecodeState, out: DecodeState)
    requires s == pre + [b]
    requires DecodeFrom(st, pre) == mid && DecodeStep(mid, b) == out
    ensures DecodeFrom(st, s) == out
  {
    DecodeSnoc(st, pre, b);
  }

  lemma {:induction false} DecodeContinued(f: bool, t: string, w: nat)
    ensures DecodeFrom(DecodeState(0, f, t), Continued(w)) == DecodeState(w * 128, f, t)
  {
    var st := DecodeState(0, f, t);
    if w >= 128 {
      DecodeContinued(f, t, w / 128);
      ContinuedDigit(f, t, w);
      DecodeVia(st, Continued(w), Continued(w / 128), w % 128 + 128, DecodeState(w / 128 * 128, f, t), DecodeState(w * 128, f, t));
    } else {
      assert (w + 128) % 128 == w;
      DecodeVia(st, Continued(w), [], w + 128, st, DecodeState(w * 128, f, t));
    }
  }

  /** A whole subidentifier adds its value's text and leaves nothing pending. */
  lemma DecodeSubidentifier(f: bool, t: string, v: nat)
    ensures DecodeFrom(DecodeState(0, f, t), Subidentifier(v)) == Finish(DecodeState(0, f, t), v)
  {
    var st := DecodeState(0, f, t);
    if v >= 128 {
      DecodeContinued(f, t, v / 128);
      FinalDigit(f, t, v);
      DecodeVia(st, Subidentifier(v), Continued(v / 128), v % 128, DecodeState(v / 128 * 128, f, t), Finish(st, v));
    } else {
      assert v % 128 == v;
      DecodeVia(st, Subidentifier(v), [], v, st, Finish(st, v));
    }
  }

  /**
   * Identifiers whose text survives the round trip: no arc with a leading zero, and a second arc below
   * 40 under a first arc of 0 or 1.
   */
  predicate Canonical(id: string)
  {
    && ValidIdentifier(id)
    && CanonicalArcs(id)
    && |Arcs(id)| >= 2
    && (id[0] != '2' ==> ParseDigits(Arcs(id)[1]) < 40)
  }

  lemma SingleDigitValue(c: char)
    requires IsDigit(c)
    ensures ParseDigits([c]) == c as int - '0' as int
  {
    assert [c][..0] == [];
  }

  lemma FirstArcsOf(d: nat, x: nat)
    requires d <= 2 && (d < 2 ==> x < 40)
    ensures FirstArcsText(d * 40 + x) == [DigitChar(d)] + "." + DecimalString(x)
  {
    var v := d * 40 + x;
    if d == 0 {
      assert v == x && v < 40 && DigitChar(d) == '0';
      assert FirstArcsText(v) == "0." + DecimalString(x);
    } else if d == 1 {
      assert v - 40 == x && 40 <= v < 80 && DigitChar(d) == '1';
      assert FirstArcsText(v) == "1." + DecimalString(x);
    } else {
      assert v - 80 == x && v >= 80 && DigitChar(d) == '2';
      assert FirstArcsText(v) == "2." + DecimalString(x);
    }
  }

  /** The first subidentifier of a canonical identifier reads back as its first two arcs. */
  lemma FirstArcsRoundTrip(id: string)
    requires Canonical(id)
    ensures FirstArcsText(SubidentifierValues(id)[0]) == Arcs(id)[0] + "." + Arcs(id)[1]
  {
    IdentifierArcs(id);
    var a := Arcs(id);
    var d := ParseDigits(a[0]);
    var x := ParseDigits(a[1]);
    assert SubidentifierValues(id)[0] == d * 40 + x;
    assert a[0] == [id[0]] by {
      assert id[..1] == [id[0]];
    }
    SingleDigitValue(id[0]);
    assert DigitChar(d) == id[0];
    FirstArcsOf(d, x);
    DecimalStringOfParse(a[1]);
  }

  lemma EncodeOne(v: nat)
    ensures EncodeSubidentifiers([v]) == Subidentifier(v)
  {
    assert [v][..0] == [];
  }

  lemma EncodeSnoc(vs: seq<nat>, m: nat)
    requires 1 <= m <= |vs|
    ensures EncodeSubidentifiers(vs[..m]) == EncodeSubidentifiers(vs[..m - 1]) + Subidentifier(vs[m - 1])
  {
    assert vs[..m][..m - 1] == vs[..m - 1];
  }

  lemma JoinTwo(x: string, y: string)
    ensures JoinArcs([x, y]) == x + "." + y
  {
    assert [x, y][1..] == [y];
  }

  /** Decoding the first subidentifier of a canonical identifier's body gives its first two arcs. */
  lemma DecodeFirst(id: string)
    requires Canonical(id)
    ensures DecodeFrom(Initial, EncodeSubidentifiers(SubidentifierValues(id)[..1]))
      == DecodeState(0, false, JoinArcs(Arcs(id)[..2]))
  {
    var a := Arcs(id);
    var vs := SubidentifierValues(id);
    EncodeFirst(vs);
    DecodeSubidentifier(true, "", vs[0]);
    FirstArcsRoundTrip(id);
    JoinFirstTwo(a);
    FinishFirst(vs[0], a[0] + "." + a[1]);
  }

  lemma EncodeFirst(vs: seq<nat>)
    requires |vs| >= 1
    ensures EncodeSubidentifiers(vs[..1]) == Subidentifier(vs[0])
  {
    assert vs[..1] == [vs[0]];
    EncodeOne(vs[0]);
  }

  lemma JoinFirstTwo(a: seq<string>)
    requires |a| >= 2
    ensures JoinArcs(a[..2]) == a[0] + "." + a[1]
  {
    assert a[..2] == [a[0], a[1]];
    JoinTwo(a[0], a[1]);
  }

  /** The first subidentifier finished from the initial state leaves its text as the whole text. */
  lemma FinishFirst(v: nat, text: string)
    requires FirstArcsText(v) == text
    ensures Finish(Initial, v) == DecodeState(0, false, text)
  {
    assert "" + text == text;
  }

  /** A later subidentifier finished appends a dot and its decimal text. */
  lemma FinishLater(text: string, v: nat, arc: string)
    requires DecimalString(v) == arc
    ensures Finish(DecodeState(0, false, text), v) == DecodeState(0, false, text + "." + arc)
  {
    assert text + ("." + arc) == text + "." + arc;
  }

  /** Each later subidentifier adds its arc. */
  lemma DecodeNext(id: string, m: nat)
    requires Canonical(id)
    requires 2 <= m <= |Arcs(id)| - 1
    requires DecodeFrom(Initial, EncodeSubidentifiers(SubidentifierValues(id)[..m - 1]))
      == DecodeState(0, false, JoinArcs(Arcs(id)[..m]))
    ensures DecodeFrom(Initial, EncodeSubidentifiers(SubidentifierValues(id)[..m]))
      == DecodeState(0, false, JoinArcs(Arcs(id)[..m + 1]))
  {
    IdentifierArcs(id);
    var a := Arcs(id);
    var vs := SubidentifierValues(id);
    EncodeSnoc(vs, m);
    assert vs[m - 1] == ParseDigits(a[m]);
    assert IsCanonicalDigits(a[m]);
    DecodeAppendArc(EncodeSubidentifiers(vs[..m - 1]), JoinArcs(a[..m]), a[m]);
    SliceSnoc(a, m);
    JoinArcsAppend(a[..m], a[m]);
  }

  lemma SliceSnoc<T>(a: seq<T>, m: nat)
    requires m < |a|
    ensures a[..m + 1] == a[..m] + [a[m]]
  {
  }

  lemma DecodeAppendArc(pre: seq<byte>, text: string, arc: string)
    requires DecodeFrom(Initial, pre) == DecodeState(0, false, text)
    requires IsCanonicalDigits(arc)
    ensures DecodeFrom(Initial, pre + Subidentifier(ParseDigits(arc))) == DecodeState(0, false, text + "." + arc)
  {
    var v := ParseDigits(arc);
    DecodeFromConcat(Initial, pre, Subidentifier(v));
    DecodeSubidentifier(false, text, v);
    DecimalStringOfParse(arc);
    FinishLater(text, v, arc);
  }

  /** Decoding the body of a canonical identifier, one subidentifier at a time. */
  lemma {:induction false} DecodePrefix(id: string, m: nat)
    requires Canonical(id)
    requires 1 <= m <= |Arcs(id)| - 1
    ensures DecodeFrom(Initial, EncodeSubidentifiers(SubidentifierValues(id)[..m]))
      == DecodeState(0, false, JoinArcs(Arcs(id)[..m + 1]))
  {
    if m == 1 {
      DecodeFirst(id);
    } else {
      DecodePrefix(id, m - 1);
      DecodeNext(id, m);
    }
  }

  /**
   * The round trip of the identifier text through the body: it is exact when no arc carries a leading
   * zero and, under a first arc of 0 or 1, the second arc is below 40.
   */
  lemma BodyRoundTrip(id: string)
    requires Canonical(id)
    ensures OidStringOfBytes(EncodeBody(id)) == id
  {
    IdentifierArcs(id);
    var a := Arcs(id);
    var vs := SubidentifierValues(id);
    DecodePrefix(id, |a| - 1);
    assert vs[..|a| - 1] == vs;
    assert a[..|a|] == a;
    JoinSplitArcs(id);
  }

  // Whatever the bytes, the decoded text is empty or a valid identifier.

  lemma DecimalStringIsBranch(n: nat)
    ensures ValidBranch(DecimalString(n))
  {
  }

  lemma FirstArcsTextValid(v: nat)
    ensures ValidIdentifier(FirstArcsText(v))
  {
    var t := FirstArcsText(v);
    var rest := if v < 40 then v else if v < 80 then v - 40 else v - 80;
    assert t[2..] == DecimalString(rest);
  }

  lemma IdentifierExtends(id: string, n: nat)
    requires ValidIdentifier(id)
    ensures ValidIdentifier(id + "." + DecimalString(n))
  {
    var s := id + "." + DecimalString(n);
    ValidBranchJoin(id[2..], DecimalString(n));
    assert s[2..] == id[2..] + "." + DecimalString(n);
  }

  /** The states the scan reaches: empty text before the first subidentifier, a valid identifier after. */
  predicate Reachable(st: DecodeState)
  {
    && (st.first <==> st.text == "")
    && (!st.first ==> ValidIdentifier(st.text))
    && st.shifted % 128 == 0
  }

  lemma ReachableFinish(st: DecodeState, v: nat)
    requires Reachable(st)
    ensures Reachable(Finish(st, v))
  {
    if st.first {
      FirstArcsTextValid(v);
      assert st.text + FirstArcsText(v) == FirstArcsText(v);
    } else {
      IdentifierExtends(st.text, v);
      assert st.text + ("." + DecimalString(v)) == st.text + "." + DecimalString(v);
    }
  }

  lemma ReachableStep(st: DecodeState, b: byte)
    requires Reachable(st)
    ensures Reachable(DecodeStep(st, b))
  {
    if b < 128 {
      ReachableFinish(st, st.shifted + b % 128);
    }
  }

  lemma {:induction false} DecodedShape(bytes: seq<byte>)
    ensures Reachable(DecodeFrom(Initial, bytes))
  {
    if |bytes| > 0 {
      DecodedShape(bytes[..|bytes| - 1]);
      ReachableStep(DecodeFrom(Initial, bytes[..|bytes| - 1]), bytes[|bytes| - 1]);
    }
  }

  /** The text read from any body bytes is empty or a valid identifier. */
  lemma DecodedIsIdentifierOrEmpty(bytes: seq<byte>)
    ensures OidStringOfBytes(bytes) == "" || ValidIdentifier(OidStringOfBytes(bytes))
  {
    DecodedShape(bytes);
  }
}
