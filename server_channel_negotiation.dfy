/**
 * The tumbler's side of channel negotiation (NTumbleBit/ClassicTumbler/ServerChannelNegotiation.cs): the
 * key checks every session makes when it is created, Alice's session (receive her escrow information, build
 * and confirm her escrow output) and Bob's four-state session (voucher, escrow information, signed
 * transaction). Hashing, key generation, escrow scripts, puzzles and the cycle generator are the
 * uninterpreted functions of `Primitives`; a fresh random key or solution is a parameter of the call.
 */
module Negotiation {
  import opened Wrappers
  import opened Bytes
  import opened Bitcoin
  import opened Escrow

  /** An RSA public key as the tumbler parameters carry it. */
  datatype RsaPubKey = RsaPubKey(modulus: nat, exponent: nat)

  /** An RSA key pair: its public half and its private exponent. */
  datatype RsaKey = RsaKey(pubKey: RsaPubKey, privateExponent: nat)

  datatype PuzzleValue = PuzzleValue(value: nat)

  datatype PuzzleSolution = PuzzleSolution(value: nat)

  /** ClassicTumblerParameters: the fields the negotiation reads (its cycle generator is in Primitives). */
  datatype Parameters = Parameters(voucherKey: RsaPubKey, serverKey: RsaPubKey, denomination: int, fee: int)

  /** What Alice sends: the cycle she joins, her escrow and redeem keys and the voucher to be solved. */
  datatype ClientEscrowInformation = ClientEscrowInformation(
    cycle: int,
    escrowKey: Option<PubKey>,
    redeemKey: Option<PubKey>,
    unsignedVoucher: Option<PuzzleValue>)

  /** What Bob sends: his escrow key and the voucher the tumbler gave him, solved. */
  datatype BobEscrowInformation = BobEscrowInformation(escrowKey: Option<PubKey>, signedVoucher: Option<PuzzleSolution>)

  /**
   * The computations the sessions call but that are not part of this model: NBitcoin's, Hash160,
   * EscrowScriptBuilder.CreateEscrow, puzzle generation and solving, and the parameters' cycle generator
   * (the start of the cycle a client names, and the client and tumbler lock times of the cycle at a start).
   */
  datatype Primitives = Primitives(
    chain: Chain,
    hash160: seq<byte> -> nat,
    solutionBytes: PuzzleSolution -> seq<byte>,
    createEscrow: (seq<Option<PubKey>>, Option<PubKey>, LockTime) -> Script,
    generatePuzzle: (RsaPubKey, PuzzleSolution) -> PuzzleValue,
    solve: (PuzzleValue, RsaKey) -> PuzzleSolution,
    cycleStart: int -> int,
    clientLockTime: int -> LockTime,
    tumblerLockTime: int -> LockTime)

  datatype TumblerBobStates = WaitingVoucherRequest | WaitingBobEscrowInformation | WaitingSignedTransaction | Completed

  /** The position of a status in the order Bob's session goes through them. */
  function StatusIndex(s: TumblerBobStates): (n: nat)
    ensures n <= 3
  {
    match s
    case WaitingVoucherRequest => 0
    case WaitingBobEscrowInformation => 1
    case WaitingSignedTransaction => 2
    case Completed => 3
  }

  /** The exceptions the sessions throw. */
  datatype NegotiationError =
    | ArgumentNull(paramName: string)
    | Argument(message: string)
    | NullReference
    | Puzzle(message: string)
    | InvalidState(actual: TumblerBobStates, expected: TumblerBobStates)
    | InvalidOperation(message: string)

  /**
   * The ServerChannelNegotiation constructor's checks, in order: null keys, then the voucher key, then the
   * tumbler key against the parameters. Null parameters are dereferenced by the key comparison before the
   * derived constructors' own null check is reached, so they fail with a null reference.
   */
  function CheckNegotiation(parameters: Option<Parameters>, tumblerKey: Option<RsaKey>, voucherKey: Option<RsaKey>)
    : (r: Outcome<NegotiationError>)
    ensures r == Pass <==>
      && parameters.Some? && tumblerKey.Some? && voucherKey.Some?
      && parameters.value.voucherKey == voucherKey.value.pubKey && parameters.value.serverKey == tumblerKey.value.pubKey
    ensures tumblerKey.None? ==> r == Fail(ArgumentNull("tumblerKey"))
    ensures tumblerKey.Some? && voucherKey.None? ==> r == Fail(ArgumentNull("voucherKey"))
    ensures tumblerKey.Some? && voucherKey.Some? && parameters.None? ==> r == Fail(NullReference)
    ensures tumblerKey.Some? && voucherKey.Some? && parameters.Some? && parameters.value.voucherKey != voucherKey.value.pubKey ==>
      r == Fail(Argument("Voucher key does not match"))
    ensures tumblerKey.Some? && voucherKey.Some? && parameters.Some? && parameters.value.voucherKey == voucherKey.value.pubKey
            && parameters.value.serverKey != tumblerKey.value.pubKey ==>
      r == Fail(Argument("Tumbler key does not match"))
  {
    if tumblerKey.None? then Fail(ArgumentNull("tumblerKey"))
    else if voucherKey.None? then Fail(ArgumentNull("voucherKey"))
    else if parameters.None? then Fail(NullReference)
    else if parameters.value.voucherKey != voucherKey.value.pubKey then Fail(Argument("Voucher key does not match"))
    else if parameters.value.serverKey != tumblerKey.value.pubKey then Fail(Argument("Tumbler key does not match"))
    else Pass
  }

  /** The first output locked by the script (FirstOrDefault over the transaction's coins). */
  function FirstOutputPaying(outputs: seq<TxOut>, script: Script): (r: Option<nat>)
    ensures r.Some? ==> r.value < |outputs| && outputs[r.value].scriptPubKey == script
    ensures r.Some? ==> forall k :: 0 <= k < r.value ==> outputs[k].scriptPubKey != script
    ensures r.None? <==> forall k :: 0 <= k < |outputs| ==> outputs[k].scriptPubKey != script
  {
    if |outputs| == 0 then None
    else if outputs[0].scriptPubKey == script then Some(0)
    else
      var rest := FirstOutputPaying(outputs[1..], script);
      assert forall k :: 1 <= k < |outputs| ==> outputs[k] == outputs[1..][k - 1];
      if rest.None? then None else Some(rest.value + 1)
  }

  /** The indices, in order, of the outputs equal in script and amount to the expected one. */
  function MatchingOutputs(outputs: seq<TxOut>, expected: TxOut): (r: seq<nat>)
    ensures forall i :: i in r <==> 0 <= i < |outputs| && outputs[i] == expected
    ensures forall a, b :: 0 <= a < b < |r| ==> r[a] < r[b]
  {
    if |outputs| == 0 then []
    else
      var last := |outputs| - 1;
      var front := MatchingOutputs(outputs[..last], expected);
      assert forall i :: 0 <= i < last ==> outputs[..last][i] == outputs[i];
      assert forall a :: 0 <= a < |front| ==> front[a] in front;
      if outputs[last] == expected then front + [last] else front
  }

  /** Two different indices both matching means MatchingOutputs has more than one element. */
  lemma TwoMatches(outputs: seq<TxOut>, expected: TxOut, i: nat, j: nat)
    requires i < j < |outputs| && outputs[i] == expected && outputs[j] == expected
    ensures |MatchingOutputs(outputs, expected)| > 1
  {
    var r := MatchingOutputs(outputs, expected);
    assert i in r && j in r;
  }

  /** An output equal to the expected one and to no other output is the only match. */
  lemma OnlyMatch(outputs: seq<TxOut>, expected: TxOut, n: nat)
    requires n < |outputs| && outputs[n] == expected
    requires forall k :: 0 <= k < |outputs| && k != n ==> outputs[k] != outputs[n]
    ensures MatchingOutputs(outputs, expected) == [n]
  {
    var r := MatchingOutputs(outputs, expected);
    assert n in r;
    assert |r| >= 2 ==> r[0] < r[1];
    assert forall a :: 0 <= a < |r| ==> r[a] in r;
  }

  // ---------------------------------------------------------------------------------------------------
  // Alice's session
  // ---------------------------------------------------------------------------------------------------

  /** The values of TumblerAliceServerSession.State; null is None. */
  datatype AliceValues = AliceValues(
    unsignedVoucher: Option<PuzzleValue>,
    escrowKey: Option<Key>,
    otherEscrowKey: Option<PubKey>,
    redeemKey: Option<PubKey>,
    cycleStart: int)

  /** CreateEscrowScript: the escrow between the tumbler's key and Alice's, redeemable by her after the client lock time. */
  function AliceEscrowScript(prims: Primitives, v: AliceValues): (r: Option<Script>)
    ensures r.Some? <==> v.escrowKey.Some?
    ensures r.Some? ==> r.value == prims.createEscrow([Some(prims.chain.pubKeyOf(v.escrowKey.value)), v.otherEscrowKey],
                                                     v.redeemKey, prims.clientLockTime(v.cycleStart))
  {
    if v.escrowKey.None? then None
    else Some(prims.createEscrow([Some(prims.chain.pubKeyOf(v.escrowKey.value)), v.otherEscrowKey],
                                 v.redeemKey, prims.clientLockTime(v.cycleStart)))
  }

  /** BuildEscrowTxOut: denomination plus fee, paid to the hash of the escrow script. */
  function AliceEscrowTxOut(prims: Primitives, p: Parameters, v: AliceValues): (r: Result<TxOut, NegotiationError>)
    ensures r.Success? <==> v.escrowKey.Some?
    ensures r.Failure? ==> r.error == NullReference
    ensures r.Success? ==> r.value.value == p.denomination + p.fee
    ensures r.Success? ==> r.value.scriptPubKey == prims.chain.p2shScriptPubKey(AliceEscrowScript(prims, v).value)
  {
    match AliceEscrowScript(prims, v)
    case None => Failure(NullReference)
    case Some(script) => Success(TxOut(p.denomination + p.fee, prims.chain.p2shScriptPubKey(script)))
  }

  /**
   * The checks ConfirmAliceEscrow makes before it touches the state: the escrow script can be built, some output
   * pays its hash, and the first such output carries denomination plus fee. The result is that output's index.
   */
  function AliceConfirmCheck(prims: Primitives, p: Parameters, v: AliceValues, tx: Transaction)
    : (r: Result<nat, NegotiationError>)
    ensures v.escrowKey.None? ==> r == Failure(NullReference)
    ensures v.escrowKey.Some? ==>
      var hash := prims.chain.p2shScriptPubKey(AliceEscrowScript(prims, v).value);
      && (FirstOutputPaying(tx.outputs, hash).None? ==> r == Failure(Puzzle("No output containing the escrowed coin")))
      && (FirstOutputPaying(tx.outputs, hash).Some? ==>
            var n := FirstOutputPaying(tx.outputs, hash).value;
            && (tx.outputs[n].value != p.denomination + p.fee ==> r == Failure(Puzzle("Incorrect amount")))
            && (tx.outputs[n].value == p.denomination + p.fee ==> r == Success(n)))
    ensures r.Success? ==> r.value < |tx.outputs| && AliceEscrowTxOut(prims, p, v) == Success(tx.outputs[r.value])
  {
    match AliceEscrowScript(prims, v)
    case None => Failure(NullReference)
    case Some(escrow) =>
      match FirstOutputPaying(tx.outputs, prims.chain.p2shScriptPubKey(escrow))
      case None => Failure(Puzzle("No output containing the escrowed coin"))
      case Some(n) =>
        if tx.outputs[n].value != p.denomination + p.fee then Failure(Puzzle("Incorrect amount"))
        else Success(n)
  }

  /** The output BuildEscrowTxOut builds confirms, provided no earlier output pays the same script hash. */
  lemma BuiltOutputConfirms(prims: Primitives, p: Parameters, v: AliceValues, tx: Transaction, n: nat)
    requires AliceEscrowTxOut(prims, p, v).Success? && n < |tx.outputs|
    requires tx.outputs[n] == AliceEscrowTxOut(prims, p, v).value
    requires forall k :: 0 <= k < n ==> tx.outputs[k].scriptPubKey != tx.outputs[n].scriptPubKey
    ensures AliceConfirmCheck(prims, p, v, tx) == Success(n)
  {
    var hash := tx.outputs[n].scriptPubKey;
    var first := FirstOutputPaying(tx.outputs, hash);
    assert first.Some?;
  }

  /** An output paying the escrow hash with any other amount, first among those paying it, is refused. */
  lemma WrongAmountRefused(prims: Primitives, p: Parameters, v: AliceValues, tx: Transaction, n: nat)
    requires AliceEscrowTxOut(prims, p, v).Success? && n < |tx.outputs|
    requires tx.outputs[n].scriptPubKey == AliceEscrowTxOut(prims, p, v).value.scriptPubKey
    requires tx.outputs[n].value != p.denomination + p.fee
    requires forall k :: 0 <= k < n ==> tx.outputs[k].scriptPubKey != tx.outputs[n].scriptPubKey
    ensures AliceConfirmCheck(prims, p, v, tx) == Failure(Puzzle("Incorrect amount"))
  {
    var first := FirstOutputPaying(tx.outputs, tx.outputs[n].scriptPubKey);
  }

  /** TumblerAliceServerSession.State: properties the session updates in place. */
  class AliceState {
    var unsignedVoucher: Option<PuzzleValue>
    var escrowKey: Option<Key>
    var otherEscrowKey: Option<PubKey>
    var redeemKey: Option<PubKey>
    var cycleStart: int

    constructor ()
      ensures Values() == AliceValues(None, None, None, None, 0)
    {
      unsignedVoucher := None;
      escrowKey := None;
      otherEscrowKey := None;
      redeemKey := None;
      cycleStart := 0;
    }

    function Values(): AliceValues
      reads this
    {
      AliceValues(unsignedVoucher, escrowKey, otherEscrowKey, redeemKey, cycleStart)
    }

    /** Serializer.Clone: a new state with the same values. */
    method Clone() returns (c: AliceState)
      ensures fresh(c) && c.Values() == Values()
    {
      c := new AliceState();
      c.unsignedVoucher := unsignedVoucher;
      c.escrowKey := escrowKey;
      c.otherEscrowKey := otherEscrowKey;
      c.redeemKey := redeemKey;
      c.cycleStart := cycleStart;
    }
  }

  class TumblerAliceServerSession {
    const parameters: Parameters
    const tumblerKey: RsaKey
    const voucherKey: RsaKey
    const internalState: AliceState

    /** The constructor once the key checks have passed: a fresh, empty state. */
    constructor (parameters: Parameters, tumblerKey: RsaKey, voucherKey: RsaKey)
      requires CheckNegotiation(Some(parameters), Some(tumblerKey), Some(voucherKey)) == Pass
      ensures this.parameters == parameters && this.tumblerKey == tumblerKey && this.voucherKey == voucherKey
      ensures fresh(internalState) && internalState.Values() == AliceValues(None, None, None, None, 0)
    {
      this.parameters := parameters;
      this.tumblerKey := tumblerKey;
      this.voucherKey := voucherKey;
      internalState := new AliceState();
    }

    /** The restoring constructor: the session works on a clone of the given state, never on the state itself. */
    constructor Restore(parameters: Parameters, tumblerKey: RsaKey, voucherKey: RsaKey, state: AliceState)
      requires CheckNegotiation(Some(parameters), Some(tumblerKey), Some(voucherKey)) == Pass
      ensures this.parameters == parameters && this.tumblerKey == tumblerKey && this.voucherKey == voucherKey
      ensures fresh(internalState) && internalState.Values() == state.Values()
    {
      this.parameters := parameters;
      this.tumblerKey := tumblerKey;
      this.voucherKey := voucherKey;
      var copy := state.Clone();
      internalState := copy;
    }

    /** GetInternalState: a clone, so changing it leaves the session as it is. */
    method GetInternalState() returns (s: AliceState)
      ensures fresh(s) && s.Values() == internalState.Values()
    {
      s := internalState.Clone();
    }

    /**
     * ReceiveAliceEscrowInformation: records the cycle start, a new escrow key and what Alice sent, and
     * returns the new key's public half; null information is a null reference with nothing changed.
     */
    method ReceiveAliceEscrowInformation(prims: Primitives, info: Option<ClientEscrowInformation>, newKey: Key)
      returns (r: Result<PubKey, NegotiationError>)
      modifies internalState
      ensures info.None? ==> r == Failure(NullReference) && unchanged(internalState)
      ensures info.Some? ==>
        && r == Success(prims.chain.pubKeyOf(newKey))
        && internalState.Values() == AliceValues(info.value.unsignedVoucher, Some(newKey), info.value.escrowKey,
                                                 info.value.redeemKey, prims.cycleStart(info.value.cycle))
    {
      if info.None? {
        return Failure(NullReference);
      }
      var cycleStart := prims.cycleStart(info.value.cycle);
      internalState.cycleStart := cycleStart;
      internalState.escrowKey := Some(newKey);
      internalState.otherEscrowKey := info.value.escrowKey;
      internalState.redeemKey := info.value.redeemKey;
      internalState.unsignedVoucher := info.value.unsignedVoucher;
      r := Success(prims.chain.pubKeyOf(newKey));
    }

    function BuildEscrowTxOut(prims: Primitives): (r: Result<TxOut, NegotiationError>)
      reads internalState
      ensures r == AliceEscrowTxOut(prims, parameters, internalState.Values())
      ensures r.Success? ==> r.value.value == parameters.denomination + parameters.fee
    {
      AliceEscrowTxOut(prims, parameters, internalState.Values())
    }

    /**
     * ConfirmAliceEscrow: finds Alice's escrow output, configures a solver session with it and the escrow
     * key, clears the four secrets and solves her voucher with the voucher key. The two checks leave the
     * state untouched; a missing voucher is found only after the clearing.
     */
    method ConfirmAliceEscrow(prims: Primitives, tx: Transaction)
      returns (r: Result<(EscrowReceiver, PuzzleSolution), NegotiationError>)
      modifies internalState
      ensures var check := AliceConfirmCheck(prims, parameters, old(internalState.Values()), tx);
        && (check.Failure? ==> r == Failure(check.error) && unchanged(internalState))
        && (check.Success? ==>
              && internalState.Values() == AliceValues(None, None, None, None, old(internalState.cycleStart))
              && (r.Success? <==> old(internalState.unsignedVoucher).Some?)
              && (r.Failure? ==> r.error == NullReference)
              && (r.Success? ==>
                    var escrow := AliceEscrowScript(prims, old(internalState.Values())).value;
                    && fresh(r.value.0)
                    && r.value.0.escrowedCoin == Some(ScriptCoin(OutputCoin(prims.chain, tx, check.value), escrow))
                    && r.value.0.escrowKey == old(internalState.escrowKey)
                    && r.value.1 == prims.solve(old(internalState.unsignedVoucher).value, voucherKey)))
    {
      var check := AliceConfirmCheck(prims, parameters, internalState.Values(), tx);
      if check.Failure? {
        return Failure(check.error);
      }
      var escrow := AliceEscrowScript(prims, internalState.Values()).value;
      var voucher := internalState.unsignedVoucher;
      var escrowedCoin := ScriptCoin(OutputCoin(prims.chain, tx, check.value), escrow);
      var session := new EscrowReceiver();
      var configured := session.ConfigureEscrowedCoin(Some(escrowedCoin), internalState.escrowKey);
      internalState.unsignedVoucher := None;
      internalState.otherEscrowKey := None;
      internalState.redeemKey := None;
      internalState.escrowKey := None;
      if voucher.None? {
        return Failure(NullReference);
      }
      r := Success((session, prims.solve(voucher.value, voucherKey)));
    }
  }

  /** new TumblerAliceServerSession(parameters, tumblerKey, voucherKey): the base checks, then an empty state. */
  method NewAliceSession(parameters: Option<Parameters>, tumblerKey: Option<RsaKey>, voucherKey: Option<RsaKey>)
    returns (r: Result<TumblerAliceServerSession, NegotiationError>)
    ensures CheckNegotiation(parameters, tumblerKey, voucherKey).Fail? ==>
      r == Failure(CheckNegotiation(parameters, tumblerKey, voucherKey).error)
    ensures CheckNegotiation(parameters, tumblerKey, voucherKey).Pass? ==>
      && r.Success? && fresh(r.value) && fresh(r.value.internalState)
      && r.value.internalState.Values() == AliceValues(None, None, None, None, 0)
  {
    var check := CheckNegotiation(parameters, tumblerKey, voucherKey);
    if check.Fail? {
      return Failure(check.error);
    }
    var session := new TumblerAliceServerSession(parameters.value, tumblerKey.value, voucherKey.value);
    r := Success(session);
  }

  /** Changing a snapshot taken with GetInternalState does not change the session. */
  method AliceSnapshotIsolated(session: TumblerAliceServerSession, cycleStart: int) returns (s: AliceState)
    ensures fresh(s) && s.cycleStart == cycleStart
    ensures session.internalState.Values() == old(session.internalState.Values())
  {
    s := session.GetInternalState();
    s.cycleStart := cycleStart;
    s.escrowKey := None;
  }

  // ---------------------------------------------------------------------------------------------------
  // Bob's session
  // ---------------------------------------------------------------------------------------------------

  /** The values of TumblerBobServerSession.State; null is None. */
  datatype BobValues = BobValues(
    redeemKey: Option<Key>,
    escrowKey: Option<Key>,
    cycleStart: int,
    status: TumblerBobStates,
    voucherHash: Option<nat>,
    otherEscrowKey: Option<PubKey>)

  /** A new session's state: nothing recorded yet, waiting for the voucher request. */
  function InitialBob(cycleStart: int): (v: BobValues)
    ensures v.status == WaitingVoucherRequest && v.cycleStart == cycleStart
  {
    BobValues(None, None, cycleStart, WaitingVoucherRequest, None, None)
  }

  /** What each status guarantees about the secrets held, for states the session itself produced. */
  predicate BobConsistent(v: BobValues)
  {
    && (v.status == WaitingVoucherRequest ==> v.voucherHash.None? && v.escrowKey.None? && v.redeemKey.None?)
    && (v.status == WaitingBobEscrowInformation ==> v.voucherHash.Some? && v.escrowKey.None? && v.redeemKey.None?)
    && (v.status == WaitingSignedTransaction ==> v.voucherHash.None? && v.escrowKey.Some? && v.redeemKey.Some?)
    && (v.status == Completed ==> v.voucherHash.None? && v.escrowKey.None? && v.redeemKey.None?)
  }

  /** AssertState: passes exactly when the status is the expected one. */
  function AssertState(actual: TumblerBobStates, expected: TumblerBobStates): (r: Outcome<NegotiationError>)
    ensures r == Pass <==> actual == expected
    ensures r.Fail? ==> r.error == InvalidState(actual, expected)
  {
    if expected != actual then Fail(InvalidState(actual, expected)) else Pass
  }

  /** GenerateUnsignedVoucher's effect: the hash of the solution recorded, one status further. */
  function AfterGenerateUnsignedVoucher(v: BobValues, solutionHash: nat): (r: Result<BobValues, NegotiationError>)
    ensures r.Success? <==> v.status == WaitingVoucherRequest
    ensures r.Failure? ==> r.error == InvalidState(v.status, WaitingVoucherRequest)
    ensures r.Success? ==> StatusIndex(r.value.status) == StatusIndex(v.status) + 1
    ensures r.Success? ==> r.value == v.(voucherHash := Some(solutionHash), status := WaitingBobEscrowInformation)
  {
    match AssertState(v.status, WaitingVoucherRequest)
    case Fail(e) => Failure(e)
    case Pass => Success(v.(voucherHash := Some(solutionHash), status := WaitingBobEscrowInformation))
  }

  /**
   * ReceiveBobEscrowInformation's effect: null information is rejected before the status is checked, then
   * the signed voucher must hash to the recorded hash; on success the keys are set, the hash cleared and the
   * status advanced.
   */
  function AfterReceiveBobEscrowInformation(prims: Primitives, v: BobValues, info: Option<BobEscrowInformation>,
                                            escrow: Key, redeem: Key): (r: Result<BobValues, NegotiationError>)
    ensures info.None? ==> r == Failure(ArgumentNull("bobKey"))
    ensures info.Some? && v.status != WaitingBobEscrowInformation ==>
      r == Failure(InvalidState(v.status, WaitingBobEscrowInformation))
    ensures r.Success? <==>
      && info.Some? && v.status == WaitingBobEscrowInformation && info.value.signedVoucher.Some?
      && Some(prims.hash160(prims.solutionBytes(info.value.signedVoucher.value))) == v.voucherHash
    ensures r.Success? ==> StatusIndex(r.value.status) == StatusIndex(v.status) + 1
    ensures r.Success? ==>
      r.value == v.(escrowKey := Some(escrow), otherEscrowKey := info.value.escrowKey, redeemKey := Some(redeem),
                    voucherHash := None, status := WaitingSignedTransaction)
  {
    if info.None? then Failure(ArgumentNull("bobKey"))
    else if AssertState(v.status, WaitingBobEscrowInformation).Fail? then
      Failure(InvalidState(v.status, WaitingBobEscrowInformation))
    else if info.value.signedVoucher.None? then Failure(NullReference)
    else if Some(prims.hash160(prims.solutionBytes(info.value.signedVoucher.value))) != v.voucherHash then
      Failure(Puzzle("Incorrect voucher"))
    else
      Success(v.(escrowKey := Some(escrow), otherEscrowKey := info.value.escrowKey, redeemKey := Some(redeem),
                 voucherHash := None, status := WaitingSignedTransaction))
  }

  /** CreateEscrowScript: the escrow between the tumbler's key and Bob's, redeemable by the tumbler after its lock time. */
  function BobEscrowScript(prims: Primitives, v: BobValues): (r: Option<Script>)
    ensures r.Some? <==> v.escrowKey.Some? && v.redeemKey.Some?
    ensures r.Some? ==>
      r.value == prims.createEscrow([Some(prims.chain.pubKeyOf(v.escrowKey.value)), v.otherEscrowKey],
                                    Some(prims.chain.pubKeyOf(v.redeemKey.value)), prims.tumblerLockTime(v.cycleStart))
  {
    if v.escrowKey.None? || v.redeemKey.None? then None
    else Some(prims.createEscrow([Some(prims.chain.pubKeyOf(v.escrowKey.value)), v.otherEscrowKey],
                                 Some(prims.chain.pubKeyOf(v.redeemKey.value)), prims.tumblerLockTime(v.cycleStart)))
  }

  /** BuildEscrowTxOut: only while waiting for the signed transaction; the denomination, paid to the escrow's hash. */
  function BobEscrowTxOut(prims: Primitives, p: Parameters, v: BobValues): (r: Result<TxOut, NegotiationError>)
    ensures v.status != WaitingSignedTransaction ==> r == Failure(InvalidState(v.status, WaitingSignedTransaction))
    ensures r.Success? <==> v.status == WaitingSignedTransaction && BobEscrowScript(prims, v).Some?
    ensures r.Success? ==>
      r.value == TxOut(p.denomination, prims.chain.p2shScriptPubKey(BobEscrowScript(prims, v).value))
  {
    if AssertState(v.status, WaitingSignedTransaction).Fail? then Failure(InvalidState(v.status, WaitingSignedTransaction))
    else match BobEscrowScript(prims, v)
      case None => Failure(NullReference)
      case Some(script) => Success(TxOut(p.denomination, prims.chain.p2shScriptPubKey(script)))
  }

  /**
   * The output SetSignedTransaction takes: the single one equal in script and amount to BuildEscrowTxOut's
   * (Single), failing on none or on several.
   */
  function SignedTransactionOutput(prims: Primitives, p: Parameters, v: BobValues, tx: Transaction)
    : (r: Result<nat, NegotiationError>)
    ensures BobEscrowTxOut(prims, p, v).Failure? ==> r == Failure(BobEscrowTxOut(prims, p, v).error)
    ensures BobEscrowTxOut(prims, p, v).Success? ==>
      var expected := BobEscrowTxOut(prims, p, v).value;
      && (r.Success? <==> |MatchingOutputs(tx.outputs, expected)| == 1)
      && (r.Success? ==> r.value < |tx.outputs| && tx.outputs[r.value] == expected)
      && (r.Success? ==> forall k :: 0 <= k < |tx.outputs| && k != r.value ==> tx.outputs[k] != expected)
      && (|MatchingOutputs(tx.outputs, expected)| == 0 ==>
            r == Failure(InvalidOperation("Sequence contains no matching element")))
      && (|MatchingOutputs(tx.outputs, expected)| > 1 ==>
            r == Failure(InvalidOperation("Sequence contains more than one matching element")))
  {
    match BobEscrowTxOut(prims, p, v)
    case Failure(e) => Failure(e)
    case Success(expected) =>
      var matches := MatchingOutputs(tx.outputs, expected);
      if |matches| == 0 then Failure(InvalidOperation("Sequence contains no matching element"))
      else if |matches| > 1 then Failure(InvalidOperation("Sequence contains more than one matching element"))
      else
        assert matches[0] in matches;
        assert forall k :: k in matches ==> k == matches[0];
        Success(matches[0])
  }

  /** SetSignedTransaction's effect on the state: the keys cleared and the session completed. */
  function AfterSetSignedTransaction(prims: Primitives, p: Parameters, v: BobValues, tx: Transaction)
    : (r: Result<BobValues, NegotiationError>)
    ensures r.Success? <==> SignedTransactionOutput(prims, p, v, tx).Success?
    ensures r.Failure? ==> r.error == SignedTransactionOutput(prims, p, v, tx).error
    ensures r.Success? ==> v.status == WaitingSignedTransaction && StatusIndex(r.value.status) == StatusIndex(v.status) + 1
    ensures r.Success? ==> r.value == v.(escrowKey := None, redeemKey := None, status := Completed)
  {
    match SignedTransactionOutput(prims, p, v, tx)
    case Failure(e) => Failure(e)
    case Success(_) => Success(v.(escrowKey := None, redeemKey := None, status := Completed))
  }

  /** Every successful transition keeps a consistent state consistent. */
  lemma TransitionsKeepConsistency(prims: Primitives, p: Parameters, v: BobValues, solutionHash: nat,
                                   info: Option<BobEscrowInformation>, escrow: Key, redeem: Key, tx: Transaction)
    requires BobConsistent(v)
    ensures AfterGenerateUnsignedVoucher(v, solutionHash).Success? ==>
      BobConsistent(AfterGenerateUnsignedVoucher(v, solutionHash).value)
    ensures AfterReceiveBobEscrowInformation(prims, v, info, escrow, redeem).Success? ==>
      BobConsistent(AfterReceiveBobEscrowInformation(prims, v, info, escrow, redeem).value)
    ensures AfterSetSignedTransaction(prims, p, v, tx).Success? ==> BobConsistent(AfterSetSignedTransaction(prims, p, v, tx).value)
  {
  }

  /** In a consistent state the signed transaction step can fail only on the outputs, never on a missing key. */
  lemma ConsistentEscrowBuilds(prims: Primitives, p: Parameters, v: BobValues)
    requires BobConsistent(v) && v.status == WaitingSignedTransaction
    ensures BobEscrowTxOut(prims, p, v).Success?
  {
  }

  /**
   * The whole protocol from a new session: the voucher, then escrow information whose signed voucher hashes
   * like the solution, then a transaction holding the escrow output exactly once, complete the session with
   * no secrets left.
   */
  lemma HappyPathCompletes(prims: Primitives, p: Parameters, cycleStart: int, solution: PuzzleSolution,
                           info: BobEscrowInformation, escrow: Key, redeem: Key, tx: Transaction, n: nat)
    requires info.signedVoucher == Some(solution)
    requires var v2 := BobValues(Some(redeem), Some(escrow), cycleStart, WaitingSignedTransaction, None, info.escrowKey);
      && n < |tx.outputs| && tx.outputs[n] == BobEscrowTxOut(prims, p, v2).value
      && forall k :: 0 <= k < |tx.outputs| && k != n ==> tx.outputs[k] != tx.outputs[n]
    ensures var h := prims.hash160(prims.solutionBytes(solution));
      var v1 := AfterGenerateUnsignedVoucher(InitialBob(cycleStart), h);
      && v1.Success?
      && var v2 := AfterReceiveBobEscrowInformation(prims, v1.value, Some(info), escrow, redeem);
      && v2.Success?
      && var v3 := AfterSetSignedTransaction(prims, p, v2.value, tx);
      && v3.Success? && v3.value.status == Completed && v3.value.escrowKey.None? && v3.value.redeemKey.None?
      && SignedTransactionOutput(prims, p, v2.value, tx) == Success(n)
  {
    var h := prims.hash160(prims.solutionBytes(solution));
    var v1 := AfterGenerateUnsignedVoucher(InitialBob(cycleStart), h).value;
    var v2 := AfterReceiveBobEscrowInformation(prims, v1, Some(info), escrow, redeem).value;
    assert v2 == BobValues(Some(redeem), Some(escrow), cycleStart, WaitingSignedTransaction, None, info.escrowKey);
    var expected := BobEscrowTxOut(prims, p, v2).value;
    OnlyMatch(tx.outputs, expected, n);
  }

  /** A transaction holding the escrow output twice is refused, whatever else it holds. */
  lemma DuplicateEscrowOutputRefused(prims: Primitives, p: Parameters, v: BobValues, tx: Transaction, i: nat, j: nat)
    requires BobEscrowTxOut(prims, p, v).Success?
    requires i < j < |tx.outputs| && tx.outputs[i] == BobEscrowTxOut(prims, p, v).value && tx.outputs[j] == tx.outputs[i]
    ensures AfterSetSignedTransaction(prims, p, v, tx) ==
      Failure(InvalidOperation("Sequence contains more than one matching element"))
  {
    TwoMatches(tx.outputs, tx.outputs[i], i, j);
  }

  /** The status never goes back: along any successful transition its index grows by exactly one. */
  lemma StatusOnlyAdvances(prims: Primitives, p: Parameters, v: BobValues, solutionHash: nat,
                           info: Option<BobEscrowInformation>, escrow: Key, redeem: Key, tx: Transaction)
    ensures AfterGenerateUnsignedVoucher(v, solutionHash).Success? ==> v.status == WaitingVoucherRequest
    ensures AfterReceiveBobEscrowInformation(prims, v, info, escrow, redeem).Success? ==>
      v.status == WaitingBobEscrowInformation
    ensures AfterSetSignedTransaction(prims, p, v, tx).Success? ==> v.status == WaitingSignedTransaction
    ensures v.status == Completed ==>
      && AfterGenerateUnsignedVoucher(v, solutionHash).Failure?
      && AfterReceiveBobEscrowInformation(prims, v, info, escrow, redeem).Failure?
      && AfterSetSignedTransaction(prims, p, v, tx).Failure?
  {
  }

  /** TumblerBobServerSession.State: properties the session updates in place. */
  class BobState {
    var redeemKey: Option<Key>
    var escrowKey: Option<Key>
    var cycleStart: int
    var status: TumblerBobStates
    var voucherHash: Option<nat>
    var otherEscrowKey: Option<PubKey>

    constructor ()
      ensures Values() == InitialBob(0)
    {
      redeemKey := None;
      escrowKey := None;
      cycleStart := 0;
      status := WaitingVoucherRequest;
      voucherHash := None;
      otherEscrowKey := None;
    }

    function Values(): BobValues
      reads this
    {
      BobValues(redeemKey, escrowKey, cycleStart, status, voucherHash, otherEscrowKey)
    }

    /** Serializer.Clone: a new state with the same values. */
    method Clone() returns (c: BobState)
      ensures fresh(c) && c.Values() == Values()
    {
      c := new BobState();
      c.redeemKey := redeemKey;
      c.escrowKey := escrowKey;
      c.cycleStart := cycleStart;
      c.status := status;
      c.voucherHash := voucherHash;
      c.otherEscrowKey := otherEscrowKey;
    }
  }

  /** PromiseServerSession.ConfigureEscrowedCoin's arguments: the escrowed coin, the escrow key and the redeem key. */
  datatype PromiseEscrow = PromiseEscrow(escrowedCoin: ScriptCoin, escrowKey: Option<Key>, redeemKey: Option<Key>)

  class TumblerBobServerSession {
    const parameters: Parameters
    const tumblerKey: RsaKey
    const voucherKey: RsaKey
    const internalState: BobState

    /** The constructor once the key checks have passed: waiting for the voucher request in the given cycle. */
    constructor (parameters: Parameters, tumblerKey: RsaKey, voucherKey: RsaKey, cycleStart: int)
      requires CheckNegotiation(Some(parameters), Some(tumblerKey), Some(voucherKey)) == Pass
      ensures this.parameters == parameters && this.tumblerKey == tumblerKey && this.voucherKey == voucherKey
      ensures fresh(internalState) && internalState.Values() == InitialBob(cycleStart)
    {
      this.parameters := parameters;
      this.tumblerKey := tumblerKey;
      this.voucherKey := voucherKey;
      var state := new BobState();
      state.cycleStart := cycleStart;
      internalState := state;
    }

    /** The restoring constructor: the session works on a clone of the given state. */
    constructor Restore(parameters: Parameters, tumblerKey: RsaKey, voucherKey: RsaKey, state: BobState)
      requires CheckNegotiation(Some(parameters), Some(tumblerKey), Some(voucherKey)) == Pass
      ensures this.parameters == parameters && this.tumblerKey == tumblerKey && this.voucherKey == voucherKey
      ensures fresh(internalState) && internalState.Values() == state.Values()
    {
      this.parameters := parameters;
      this.tumblerKey := tumblerKey;
      this.voucherKey := voucherKey;
      var copy := state.Clone();
      internalState := copy;
    }

    method GetInternalState() returns (s: BobState)
      ensures fresh(s) && s.Values() == internalState.Values()
    {
      s := internalState.Clone();
    }

    /**
     * GenerateUnsignedVoucher: a puzzle under the voucher key whose solution is the given one (the random
     * choice); the solution's hash is recorded for the escrow step.
     */
    method GenerateUnsignedVoucher(prims: Primitives, solution: PuzzleSolution) returns (r: Result<PuzzleValue, NegotiationError>)
      modifies internalState
      ensures var next := AfterGenerateUnsignedVoucher(old(internalState.Values()), prims.hash160(prims.solutionBytes(solution)));
        && (next.Failure? ==> r == Failure(next.error) && unchanged(internalState))
        && (next.Success? ==> r == Success(prims.generatePuzzle(parameters.voucherKey, solution))
                              && internalState.Values() == next.value)
    {
      var check := AssertState(internalState.status, WaitingVoucherRequest);
      if check.Fail? {
        return Failure(check.error);
      }
      var puzzle := prims.generatePuzzle(parameters.voucherKey, solution);
      internalState.voucherHash := Some(prims.hash160(prims.solutionBytes(solution)));
      internalState.status := WaitingBobEscrowInformation;
      r := Success(puzzle);
    }

    /** ReceiveBobEscrowInformation, with the two new random keys as parameters. */
    method ReceiveBobEscrowInformation(prims: Primitives, info: Option<BobEscrowInformation>, escrow: Key, redeem: Key)
      returns (r: Outcome<NegotiationError>)
      modifies internalState
      ensures var next := AfterReceiveBobEscrowInformation(prims, old(internalState.Values()), info, escrow, redeem);
        && (next.Failure? ==> r == Fail(next.error) && unchanged(internalState))
        && (next.Success? ==> r == Pass && internalState.Values() == next.value)
    {
      if info.None? {
        return Fail(ArgumentNull("bobKey"));
      }
      var check := AssertState(internalState.status, WaitingBobEscrowInformation);
      if check.Fail? {
        return Fail(check.error);
      }
      if info.value.signedVoucher.None? {
        return Fail(NullReference);
      }
      if Some(prims.hash160(prims.solutionBytes(info.value.signedVoucher.value))) != internalState.voucherHash {
        return Fail(Puzzle("Incorrect voucher"));
      }
      internalState.escrowKey := Some(escrow);
      internalState.otherEscrowKey := info.value.escrowKey;
      internalState.redeemKey := Some(redeem);
      internalState.voucherHash := None;
      internalState.status := WaitingSignedTransaction;
      r := Pass;
    }

    function BuildEscrowTxOut(prims: Primitives): (r: Result<TxOut, NegotiationError>)
      reads internalState
      ensures r == BobEscrowTxOut(prims, parameters, internalState.Values())
      ensures r.Success? ==> r.value.value == parameters.denomination
    {
      BobEscrowTxOut(prims, parameters, internalState.Values())
    }

    /**
     * SetSignedTransaction: takes the single escrow output of the signed transaction, hands it with the escrow
     * and redeem keys to a promise session, clears the keys and completes.
     */
    method SetSignedTransaction(prims: Primitives, tx: Transaction) returns (r: Result<PromiseEscrow, NegotiationError>)
      modifies internalState
      ensures var v := old(internalState.Values());
        var next := AfterSetSignedTransaction(prims, parameters, v, tx);
        && (next.Failure? ==> r == Failure(next.error) && unchanged(internalState))
        && (next.Success? ==>
              && internalState.Values() == next.value
              && r == Success(PromiseEscrow(
                   ScriptCoin(OutputCoin(prims.chain, tx, SignedTransactionOutput(prims, parameters, v, tx).value),
                              BobEscrowScript(prims, v).value),
                   v.escrowKey, v.redeemKey)))
    {
      var check := AssertState(internalState.status, WaitingSignedTransaction);
      if check.Fail? {
        return Failure(check.error);
      }
      var output := SignedTransactionOutput(prims, parameters, internalState.Values(), tx);
      if output.Failure? {
        return Failure(output.error);
      }
      var escrowedCoin := ScriptCoin(OutputCoin(prims.chain, tx, output.value), BobEscrowScript(prims, internalState.Values()).value);
      var session := PromiseEscrow(escrowedCoin, internalState.escrowKey, internalState.redeemKey);
      internalState.escrowKey := None;
      internalState.redeemKey := None;
      internalState.status := Completed;
      r := Success(session);
    }
  }

  /** new TumblerBobServerSession(parameters, tumblerKey, voucherKey, cycleStart): the base checks, then a new state. */
  method NewBobSession(parameters: Option<Parameters>, tumblerKey: Option<RsaKey>, voucherKey: Option<RsaKey>,
                       cycleStart: int) returns (r: Result<TumblerBobServerSession, NegotiationError>)
    ensures CheckNegotiation(parameters, tumblerKey, voucherKey).Fail? ==>
      r == Failure(CheckNegotiation(parameters, tumblerKey, voucherKey).error)
    ensures CheckNegotiation(parameters, tumblerKey, voucherKey).Pass? ==>
      && r.Success? && fresh(r.value) && fresh(r.value.internalState)
      && r.value.internalState.Values() == InitialBob(cycleStart) && BobConsistent(r.value.internalState.Values())
  {
    var check := CheckNegotiation(parameters, tumblerKey, voucherKey);
    if check.Fail? {
      return Failure(check.error);
    }
    var session := new TumblerBobServerSession(parameters.value, tumblerKey.value, voucherKey.value, cycleStart);
    r := Success(session);
  }

  /** Changing a snapshot taken with GetInternalState does not change the session. */
  method BobSnapshotIsolated(session: TumblerBobServerSession, status: TumblerBobStates) returns (s: BobState)
    ensures fresh(s) && s.status == status
    ensures session.internalState.Values() == old(session.internalState.Values())
  {
    s := session.GetInternalState();
    s.status := status;
    s.voucherHash := None;
  }
}
