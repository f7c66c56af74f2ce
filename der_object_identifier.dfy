/**
 * DER OBJECT IDENTIFIER (NTumbleBit/BouncyCastle/asn1/DerObjectIdentifier.cs): validation of the dotted
 * text, the body writer and reader, the lazily computed body, and equality by identifier text.
 */
module ObjectIdentifier {
  import opened Wrappers
  import opened Numeric
  import opened Bytes
  import opened Decimal
  import opened OidText
  import opened Base128
  import opened OidCodec
  import opened Asn1

  /** IsValidBranchID: scans from the end towards start; a dot is allowed only right before a digit. */
  method IsValidBranchId(branchId: string, start: nat) returns (ok: bool)
    ensures ok == (start < |branchId| && ValidBranch(branchId[start..]))
  {
    var periodAllowed := false;
    var pos := |branchId|;
    while pos > start
      invariant pos <= |branchId| && (start <= pos || pos == |branchId|)
      invariant WellFormedSuffix(branchId[pos..])
      invariant periodAllowed == (pos < |branchId| && IsDigit(branchId[pos]))
    {
      pos := pos - 1;
      var ch := branchId[pos];
      WellFormedExtend(branchId, pos);
      if '0' <= ch <= '9' {
        periodAllowed := true;
      } else if ch == '.' {
        if !periodAllowed {
          if start < |branchId| && ValidBranch(branchId[start..]) {
            WellFormedDrop(branchId, start, pos);
          }
          return false;
        }
        periodAllowed := false;
      } else {
        if start < |branchId| && ValidBranch(branchId[start..]) {
          WellFormedDrop(branchId, start, pos);
        }
        return false;
      }
    }
    ok := periodAllowed;
  }

  /** IsValidIdentifier: a first arc 0, 1 or 2, a dot, then a valid branch. */
  method IsValidIdentifier(identifier: string) returns (ok: bool)
    ensures ok == ValidIdentifier(identifier)
  {
    if |identifier| < 3 || identifier[1] != '.' {
      return false;
    }
    var first := identifier[0];
    if first < '0' || first > '2' {
      return false;
    }
    ok := IsValidBranchId(identifier, 2);
  }

  /** On: the stem's text followed by a dot begins the identifier; that is, the identifier is a branch of the stem. */
  predicate IsOn(id: string, stemId: string): (r: bool)
    ensures r <==> exists branchId :: id == stemId + "." + branchId
  {
    assert forall branchId :: id == stemId + "." + branchId ==>
      |id| > |stemId| && id[|stemId|] == '.' && stemId <= id by {
      forall branchId | id == stemId + "." + branchId
        ensures |id| > |stemId| && id[|stemId|] == '.' && stemId <= id
      {
        assert id[..|stemId|] == stemId;
      }
    }
    if |id| > |stemId| && id[|stemId|] == '.' && stemId <= id then
      assert id == stemId + "." + id[|stemId| + 1..];
      true
    else
      false
  }

  /** An identifier is on a stem exactly when the stem's arcs are a proper prefix of its arcs. */
  lemma OnIffArcPrefix(id: string, stemId: string)
    ensures IsOn(id, stemId) <==>
      |Arcs(stemId)| < |Arcs(id)| && Arcs(id)[..|Arcs(stemId)|] == Arcs(stemId)
  {
    if IsOn(id, stemId) {
      OnGivesArcPrefix(id, stemId);
    }
    if |Arcs(stemId)| < |Arcs(id)| && Arcs(id)[..|Arcs(stemId)|] == Arcs(stemId) {
      ArcPrefixGivesOn(id, stemId);
    }
  }

  lemma OnGivesArcPrefix(id: string, stemId: string)
    requires IsOn(id, stemId)
    ensures |Arcs(stemId)| < |Arcs(id)| && Arcs(id)[..|Arcs(stemId)|] == Arcs(stemId)
  {
    var rest := id[|stemId| + 1..];
    assert id == stemId + "." + rest;
    ArcsOfConcat(stemId, rest);
  }

  lemma ArcPrefixGivesOn(id: string, stemId: string)
    requires |Arcs(stemId)| < |Arcs(id)| && Arcs(id)[..|Arcs(stemId)|] == Arcs(stemId)
    ensures IsOn(id, stemId)
  {
    var a, b := Arcs(id), Arcs(stemId);
    var more := a[|b|..];
    assert a == b + more;
    JoinSplitArcs(id);
    JoinSplitArcs(stemId);
    JoinArcsConcat(b, more);
    var tail := JoinArcs(more);
    assert id == stemId + "." + tail;
    assert id[..|stemId|] == stemId;
    assert id[|stemId|] == '.';
  }

  /** A branch is on the identifier it extends, and its arcs are the stem's arcs then the branch's. */
  lemma BranchIsOn(stemId: string, branchId: string)
    ensures IsOn(stemId + "." + branchId, stemId)
    ensures Arcs(stemId + "." + branchId) == Arcs(stemId) + Arcs(branchId)
  {
    ArcsOfConcat(stemId, branchId);
  }

  /** The identifier texts an object can carry: from a string, from bytes, or built by Branch. */
  predicate Spelling(s: string)
  {
    s == "" || ValidIdentifier(s) || (|s| > 1 && s[0] == '.' && ValidBranch(s[1..]))
  }

  /** Branching any spelling with a valid branch gives a non-empty spelling; valid stays valid. */
  lemma BranchSpelling(stemId: string, branchId: string)
    requires Spelling(stemId) && ValidBranch(branchId)
    ensures Spelling(stemId + "." + branchId) && stemId + "." + branchId != ""
    ensures ValidIdentifier(stemId) ==> ValidIdentifier(stemId + "." + branchId)
  {
    var s := stemId + "." + branchId;
    if stemId == "" {
      assert s[1..] == branchId;
    } else if ValidIdentifier(stemId) {
      ValidBranchJoin(stemId[2..], branchId);
      assert s[2..] == stemId[2..] + "." + branchId;
    } else {
      ValidBranchJoin(stemId[1..], branchId);
      assert s[1..] == stemId[1..] + "." + branchId;
    }
  }

  /** LONG_LIMIT: above it the next shift by seven bits could overflow a long. */
  const LongLimit: nat := LongMax / 128 - 0x7f

  /** The text appended for a first subidentifier, in the three cases the reader distinguishes. */
  lemma AppendFirstArcs(t: string, v: nat)
    ensures v < 40 ==> t + "0" + "." + DecimalString(v) == t + FirstArcsText(v)
    ensures 40 <= v < 80 ==> t + "1" + "." + DecimalString(v - 40) == t + FirstArcsText(v)
    ensures v >= 80 ==> t + "2" + "." + DecimalString(v - 80) == t + FirstArcsText(v)
  {
  }

  lemma AppendLaterArc(t: string, v: nat)
    ensures t + "." + DecimalString(v) == t + ("." + DecimalString(v))
  {
  }

  /** DecodeStep spelled out in the cases MakeOidStringFromBytes distinguishes. */
  lemma StepCases(st: DecodeState, b: byte)
    ensures var v := st.shifted + b % 128;
      && (b >= 128 ==> DecodeStep(st, b) == DecodeState(v * 128, st.first, st.text))
      && (b < 128 && !st.first ==> DecodeStep(st, b) == DecodeState(0, false, st.text + "." + DecimalString(v)))
      && (b < 128 && st.first && v < 40 ==>
            DecodeStep(st, b) == DecodeState(0, false, st.text + "0" + "." + DecimalString(v)))
      && (b < 128 && st.first && 40 <= v < 80 ==>
            DecodeStep(st, b) == DecodeState(0, false, st.text + "1" + "." + DecimalString(v - 40)))
      && (b < 128 && st.first && v >= 80 ==>
            DecodeStep(st, b) == DecodeState(0, false, st.text + "2" + "." + DecimalString(v - 80)))
  {
    var v := st.shifted + b % 128;
    AppendFirstArcs(st.text, v);
    AppendLaterArc(st.text, v);
  }

  lemma DecodeNextByte(bytes: seq<byte>, i: nat)
    requires i < |bytes|
    ensures DecodeFrom(Initial, bytes[..i + 1]) == DecodeStep(DecodeFrom(Initial, bytes[..i]), bytes[i])
  {
    assert bytes[..i + 1][..i] == bytes[..i];
  }

  /** One byte of MakeOidStringFromBytes while the subidentifier still fits the long accumulator. */
  method ReadLongByte(objId: string, value: nat, first: bool, b: byte, ghost st: DecodeState)
    returns (newObjId: string, newValue: nat, newFirst: bool)
    requires objId == st.text && first == st.first && value == st.shifted && value <= LongLimit
    ensures var next := DecodeStep(st, b);
      newObjId == next.text && newFirst == next.first && newValue == next.shifted && newValue <= LongMax
  {
    StepCases(st, b);
    newObjId, newValue, newFirst := objId, value + b % 128, first;
    if b < 128 {
      if newFirst {
        if newValue < 40 {
          newObjId := newObjId + "0";
        } else if newValue < 80 {
          newObjId := newObjId + "1";
          newValue := newValue - 40;
        } else {
          newObjId := newObjId + "2";
          newValue := newValue - 80;
        }
        newFirst := false;
      }
      newObjId := newObjId + "." + DecimalString(newValue);
      newValue := 0;
    } else {
      newValue := newValue * 128;
    }
  }

  /** One byte of MakeOidStringFromBytes once the subidentifier has outgrown the long accumulator. */
  method ReadBigByte(objId: string, bigValue: nat, first: bool, b: byte, ghost st: DecodeState)
    returns (newObjId: string, newBig: Option<nat>, newFirst: bool)
    requires objId == st.text && first == st.first && bigValue == st.shifted
    requires bigValue % 128 == 0 && bigValue > LongLimit
    ensures var next := DecodeStep(st, b);
      && newObjId == next.text && newFirst == next.first
      && (newBig.None? <==> b < 128)
      && (newBig.Some? ==> newBig.value == next.shifted && newBig.value > LongLimit)
  {
    StepCases(st, b);
    BitOrLow7(bigValue, b % 128);
    var big := BitOr(bigValue, b % 128);
    newObjId, newFirst := objId, first;
    if b < 128 {
      if newFirst {
        newObjId := newObjId + "2";
        big := big - 80;
        newFirst := false;
      }
      newObjId := newObjId + "." + DecimalString(big);
      newBig := None;
    } else {
      newBig := Some(big * 128);
    }
  }

  /** MakeOidStringFromBytes: reads subidentifiers into a long while they fit, else into a BigInteger. */
  method MakeOidStringFromBytes(bytes: seq<byte>) returns (objId: string)
    ensures objId == OidStringOfBytes(bytes)
  {
    objId := "";
    var value: nat := 0;
    var bigValue: Option<nat> := None;
    var first := true;
    ghost var st := Initial;
    var i := 0;
    while i != |bytes|
      invariant 0 <= i <= |bytes|
      invariant st == DecodeFrom(Initial, bytes[..i]) && st.shifted % 128 == 0
      invariant objId == st.text && first == st.first
      invariant bigValue.None? ==> value == st.shifted && value <= LongMax
      invariant bigValue.Some? ==> bigValue.value == st.shifted && value > LongLimit && bigValue.value > LongLimit
    {
      DecodeNextByte(bytes, i);
      var b := bytes[i];
      if value <= LongLimit {
        objId, value, first := ReadLongByte(objId, value, first, b, st);
      } else {
        if bigValue.None? {
          bigValue := Some(value);
        }
        objId, bigValue, first := ReadBigByte(objId, bigValue.value, first, b, st);
        if bigValue.None? {
          value := 0;
        }
      }
      st := DecodeStep(st, b);
      i := i + 1;
      DecodedShape(bytes[..i]);
    }
    assert bytes[..i] == bytes;
  }

  /** BigInteger.Or of a multiple of 128 with a seven-bit group adds them. */
  lemma BitOrLow7(a: nat, y: nat)
    requires a % 128 == 0 && y < 128
    ensures BitOr(a, y) == a + y
  {
    assert Pow(2, 7) == 128;
    assert a == Pow(2, 7) * (a / 128);
    BitOrIsAdd(a / 128, 7, y);
  }

  /** Short arcs (at most 18 digits) fit a long even after adding the first arc's 80. */
  lemma ShortArcFitsLong(token: string)
    requires IsDigits(token) && |token| <= 18
    ensures ParseDigits(token) + 80 <= LongMax
  {
    ParseDigitsBound(token);
    PowMonotone(10, |token|, 18);
    assert Pow(10, 6) == 1_000_000;
    assert Pow(10, 12) == Pow(10, 6) * Pow(10, 6) by {
      PowAdd(10, 6, 6);
    }
    assert Pow(10, 18) == Pow(10, 12) * Pow(10, 6) by {
      PowAdd(10, 12, 6);
    }
  }

  /** WriteField with the long or the BigInteger overload, as DoOutput chooses by the token's length. */
  method WriteArc(token: string, offset: nat) returns (field: seq<byte>)
    requires IsDigits(token) && offset <= 80
    ensures field == Subidentifier(ParseDigits(token) + offset)
  {
    if |token| <= 18 {
      ShortArcFitsLong(token);
      field := WriteFieldLong(offset + ParseDigits(token));
    } else {
      field := WriteFieldBig(ParseDigits(token) + offset);
    }
  }

  /** Among the spellings, int.Parse of the first token succeeds exactly for valid identifiers. */
  lemma FirstTokenDecides(s: string)
    requires Spelling(s) && s != ""
    ensures ValidIdentifier(s) <==> |Arcs(s)[0]| > 0
  {
    if ValidIdentifier(s) {
      IdentifierArcs(s);
    } else {
      assert FirstDot(s) == 0;
    }
  }

  /** The tokens of a valid identifier are digit runs that give its subidentifier values: the first two merged. */
  lemma TokenValues(s: string)
    requires ValidIdentifier(s)
    ensures var a, vs := Arcs(s), SubidentifierValues(s);
      && |a| >= 2 && |vs| == |a| - 1
      && (forall k :: 0 <= k < |a| ==> IsDigits(a[k]))
      && ParseDigits(a[0]) <= 2
      && vs[0] == ParseDigits(a[1]) + ParseDigits(a[0]) * 40
      && (forall k :: 2 <= k < |a| ==> vs[k - 1] == ParseDigits(a[k]))
  {
    IdentifierArcs(s);
    var a := Arcs(s);
    DigitsAtEveryIndex(a);
    FirstTokenBound(s);
    var vs := SubidentifierValues(s);
    assert forall i :: 0 <= i < |vs| ==> vs[i] == ArcValue(a, i);
    ValuesOfTokens(a, vs);
  }

  lemma ValuesOfTokens(a: seq<string>, vs: seq<nat>)
    requires |a| >= 2 && |vs| == |a| - 1 && forall k :: 0 <= k < |a| ==> IsDigits(a[k])
    requires forall i :: 0 <= i < |vs| ==> vs[i] == ArcValue(a, i)
    ensures vs[0] == ParseDigits(a[1]) + ParseDigits(a[0]) * 40
    ensures forall k :: 2 <= k < |a| ==> vs[k - 1] == ParseDigits(a[k])
  {
    forall k | 2 <= k < |a|
      ensures vs[k - 1] == ParseDigits(a[k])
    {
      assert vs[k - 1] == ArcValue(a, k - 1);
    }
  }

  /** The first token of a valid identifier is the digit 0, 1 or 2. */
  lemma FirstTokenBound(s: string)
    requires ValidIdentifier(s)
    ensures IsDigits(Arcs(s)[0]) && ParseDigits(Arcs(s)[0]) <= 2
  {
    IdentifierArcs(s);
    var t := Arcs(s)[0];
    assert t == [s[0]] by {
      assert s[..1] == [s[0]];
    }
    SingleDigitValue(s[0]);
  }

  /** The loop of DoOutput over the tokens of a valid identifier: the first two merged, then one field per arc. */
  method WriteArcs(id: string) returns (out: seq<byte>)
    requires ValidIdentifier(id)
    ensures out == EncodeBody(id)
  {
    TokenValues(id);
    out := WriteTokens(Arcs(id), SubidentifierValues(id));
  }

  /** Writes the subidentifier of each token, the first two tokens merged into one. */
  method WriteTokens(tokens: seq<string>, ghost vs: seq<nat>) returns (out: seq<byte>)
    requires |tokens| >= 2 && |vs| == |tokens| - 1
    requires forall k :: 0 <= k < |tokens| ==> IsDigits(tokens[k])
    requires ParseDigits(tokens[0]) <= 2
    requires vs[0] == ParseDigits(tokens[1]) + ParseDigits(tokens[0]) * 40
    requires forall k :: 2 <= k < |tokens| ==> vs[k - 1] == ParseDigits(tokens[k])
    ensures out == EncodeSubidentifiers(vs)
  {
    var first := ParseDigits(tokens[0]) * 40;
    out := WriteArc(tokens[1], first);
    EncodeFirst(vs);
    var k := 2;
    while k < |tokens|
      invariant 2 <= k <= |tokens|
      invariant out == EncodeSubidentifiers(vs[..k - 1])
    {
      var field := WriteArc(tokens[k], 0);
      EncodeSnoc(vs, k);
      out := out + field;
      k := k + 1;
    }
    assert vs[..k - 1] == vs;
  }

  class DerObjectIdentifier {
    const identifier: string
    var body: Option<seq<byte>>

    /** The spellings the constructors and Branch produce; without a body the text is never empty. */
    ghost predicate Valid()
      reads this
    {
      Spelling(identifier) && (body.None? ==> identifier != "")
    }

    /** The string constructor, once Create has checked the text. */
    constructor (identifier: string)
      requires ValidIdentifier(identifier)
      ensures this.identifier == identifier && body.None? && Valid()
    {
      this.identifier := identifier;
      body := None;
    }

    /** The branch constructor, once Branch has checked the branch text. */
    constructor OfBranch(stemId: string, branchId: string)
      requires Spelling(stemId) && ValidBranch(branchId)
      ensures identifier == stemId + "." + branchId && body.None? && Valid()
    {
      BranchSpelling(stemId, branchId);
      identifier := stemId + "." + branchId;
      body := None;
    }

    /** The byte constructor: the text read from the body, and a copy of the body kept. */
    constructor FromBytes(bytes: seq<byte>)
      ensures identifier == OidStringOfBytes(bytes) && body == Some(bytes) && Valid()
    {
      var id := MakeOidStringFromBytes(bytes);
      DecodedIsIdentifierOrEmpty(bytes);
      identifier := id;
      body := Some(bytes);
    }

    /** new DerObjectIdentifier(string): rejects a null or malformed identifier. */
    static method Create(identifier: Option<string>) returns (r: Result<DerObjectIdentifier, Asn1Error>)
      ensures identifier.None? ==> r == Failure(ArgumentNull("identifier"))
      ensures identifier.Some? && !ValidIdentifier(identifier.value) ==> r == Failure(NotAnOid(identifier.value))
      ensures identifier.Some? && ValidIdentifier(identifier.value) ==>
        r.Success? && fresh(r.value) && r.value.identifier == identifier.value && r.value.body.None? && r.value.Valid()
    {
      if identifier.None? {
        return Failure(ArgumentNull("identifier"));
      }
      var ok := IsValidIdentifier(identifier.value);
      if !ok {
        return Failure(NotAnOid(identifier.value));
      }
      var oid := new DerObjectIdentifier(identifier.value);
      return Success(oid);
    }

    /** Branch: rejects an invalid branch text, else the identifier extended by a dot and the branch. */
    method Branch(branchId: string) returns (r: Result<DerObjectIdentifier, Asn1Error>)
      requires Valid()
      ensures !ValidBranch(branchId) ==> r == Failure(NotABranch(branchId))
      ensures ValidBranch(branchId) ==>
        && r.Success? && fresh(r.value) && r.value.Valid() && r.value.body.None?
        && r.value.identifier == identifier + "." + branchId
    {
      var ok := IsValidBranchId(branchId, 0);
      assert branchId[0..] == branchId;
      if !ok {
        return Failure(NotABranch(branchId));
      }
      var oid := new DerObjectIdentifier.OfBranch(identifier, branchId);
      return Success(oid);
    }

    /** On: this identifier's arcs continue the stem's. */
    function On(stem: DerObjectIdentifier): (r: bool)
      reads this, stem
      ensures r <==> (|Arcs(stem.identifier)| < |Arcs(identifier)| &&
                      Arcs(identifier)[..|Arcs(stem.identifier)|] == Arcs(stem.identifier))
    {
      OnIffArcPrefix(identifier, stem.identifier);
      IsOn(identifier, stem.identifier)
    }

    /**
     * DoOutput: the subidentifiers of the arcs handed out by the tokenizer, the first two merged. A text
     * built by branching an empty identifier starts with an empty arc, which int.Parse rejects.
     */
    method DoOutput() returns (r: Result<seq<byte>, Asn1Error>)
      requires Spelling(identifier) && identifier != ""
      ensures ValidIdentifier(identifier) ==> r == Success(EncodeBody(identifier))
      ensures !ValidIdentifier(identifier) ==> r == Failure(FormatError(""))
    {
      var tokens := Arcs(identifier);
      FirstTokenDecides(identifier);
      if |tokens[0]| == 0 {
        return Failure(FormatError(tokens[0]));
      }
      var out := WriteArcs(identifier);
      return Success(out);
    }

    /** GetBody: the stored body, or the body written from the identifier and remembered. */
    method GetBody() returns (r: Result<seq<byte>, Asn1Error>)
      requires Valid()
      modifies this
      ensures Valid()
      ensures old(body).Some? ==> r == Success(old(body).value) && body == old(body)
      ensures old(body).None? && ValidIdentifier(identifier) ==>
        r == Success(EncodeBody(identifier)) && body == Some(EncodeBody(identifier))
      ensures old(body).None? && !ValidIdentifier(identifier) ==> r.Failure? && body == old(body)
    {
      if body.None? {
        var written := DoOutput();
        if written.Failure? {
          return written;
        }
        body := Some(written.value);
      }
      r := Success(body.value);
    }

    /** Asn1Equals: another object identifier with the same text. */
    function Asn1Equals(other: Asn1Object): (r: bool)
      ensures r <==> other == ObjectIdentifier(identifier)
    {
      match other
      case ObjectIdentifier(id) => identifier == id
      case _ => false
    }
  }
}
