/**
 * AlgorithmIdentifier (NTumbleBit/BouncyCastle/asn1/X509/AlgorithmIdentifier.cs):
 * SEQUENCE { algorithm OBJECT IDENTIFIER, parameters ANY DEFINED BY algorithm OPTIONAL },
 * section 4.1.1.2 of RFC 5280.
 */
module AlgorithmId {
  import opened Wrappers
  import opened Asn1
  import opened OidText
  import opened ObjectIdentifier

  /** The algorithm's identifier, its parameters (null when absent) and whether parameters were given at all. */
  datatype AlgorithmIdentifier = AlgorithmIdentifier(
    objectID: DerObjectIdentifier,
    parameters: Option<Asn1Object>,
    parametersDefined: bool)
  {
    /**
     * ToAsn1Object: the identifier, then, only when parameters were given, the parameters or, for null
     * parameters, an ASN.1 NULL.
     */
    function ToAsn1Object(): (r: Asn1Object)
      ensures r.Sequence? && 1 <= |r.elements| <= 2
      ensures r.elements[0] == Asn1Object.ObjectIdentifier(objectID.identifier)
      ensures |r.elements| == 2 <==> parametersDefined
      ensures parametersDefined && parameters.Some? ==> r.elements[1] == parameters.value
      ensures parametersDefined && parameters.None? ==> r.elements[1] == Null
    {
      var v := [Asn1Object.ObjectIdentifier(objectID.identifier)];
      var v := if !parametersDefined then v else if parameters.Some? then v + [parameters.value] else v + [Null];
      Sequence(v)
    }
  }

  /** new AlgorithmIdentifier(objectID): no parameters. */
  function OfOid(objectID: DerObjectIdentifier): (a: AlgorithmIdentifier)
    ensures a.objectID == objectID && a.parameters.None? && !a.parametersDefined
    ensures a.ToAsn1Object() == Sequence([Asn1Object.ObjectIdentifier(objectID.identifier)])
  {
    AlgorithmIdentifier(objectID, None, false)
  }

  /** new AlgorithmIdentifier(objectID, parameters): parameters given, possibly null. */
  function WithParameters(objectID: DerObjectIdentifier, parameters: Option<Asn1Object>): (a: AlgorithmIdentifier)
    ensures a.objectID == objectID && a.parameters == parameters && a.parametersDefined
    ensures a.ToAsn1Object() == Sequence([Asn1Object.ObjectIdentifier(objectID.identifier),
                                          if parameters.Some? then parameters.value else Null])
  {
    AlgorithmIdentifier(objectID, parameters, true)
  }

  /** new AlgorithmIdentifier(string): the text is checked by the DerObjectIdentifier constructor. */
  method OfString(objectID: Option<string>) returns (r: Result<AlgorithmIdentifier, Asn1Error>)
    ensures objectID.None? ==> r == Failure(ArgumentNull("identifier"))
    ensures objectID.Some? && !ValidIdentifier(objectID.value) ==> r == Failure(NotAnOid(objectID.value))
    ensures objectID.Some? && ValidIdentifier(objectID.value) ==>
      && r.Success? && fresh(r.value.objectID) && r.value.objectID.identifier == objectID.value
      && r.value.parameters.None? && !r.value.parametersDefined
  {
    var oid := DerObjectIdentifier.Create(objectID);
    if oid.Failure? {
      return Failure(oid.error);
    }
    r := Success(OfOid(oid.value));
  }

  /**
   * Reads an AlgorithmIdentifier as section 4.1.1.2 of RFC 5280 lays it out: a sequence of an object
   * identifier and at most one more element, the parameters.
   */
  function ParseAlgorithmIdentifier(o: Asn1Object): Option<(string, Option<Asn1Object>)>
  {
    if !o.Sequence? || !(1 <= |o.elements| <= 2) || !o.elements[0].ObjectIdentifier? then None
    else if |o.elements| == 1 then Some((o.elements[0].id, None))
    else Some((o.elements[0].id, Some(o.elements[1])))
  }

  /** What ToAsn1Object writes reads back as the identifier and the parameters, with null parameters as NULL. */
  lemma ToAsn1ObjectParses(a: AlgorithmIdentifier)
    ensures ParseAlgorithmIdentifier(a.ToAsn1Object()) ==
      Some((a.objectID.identifier,
            if !a.parametersDefined then None
            else if a.parameters.Some? then a.parameters
            else Some(Null)))
  {
  }

  /** Null parameters and explicit NULL parameters encode alike, and differ from no parameters. */
  lemma NullParametersEncodeAsNull(objectID: DerObjectIdentifier)
    ensures WithParameters(objectID, None).ToAsn1Object() == WithParameters(objectID, Some(Null)).ToAsn1Object()
    ensures WithParameters(objectID, None).ToAsn1Object() != OfOid(objectID).ToAsn1Object()
  {
    assert |WithParameters(objectID, None).ToAsn1Object().elements| == 2;
  }
}
