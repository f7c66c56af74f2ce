/**
 * A transaction the tumbler holds back until a height (NTumbleBit/TrustedBroadcastRequest.cs): when it may
 * be broadcast, and re-signing it against a new coin by replacing placeholder signatures.
 */
module TrustedBroadcast {
  import opened Wrappers
  import opened Bytes
  import opened Bitcoin

  /**
   * Why ReSign fails: no first input, an empty script signature, a last operation that pushes no redeem
   * script, or a redeem script that does not pay to the coin's output script.
   */
  datatype ReSignError = NoInput | EmptyScriptSig | NoRedeemPush | RedeemMismatch

  /** The 71 zero bytes that stand where a signature will go. */
  const PlaceholderSignature: seq<byte> := Zeros(71)

  /** IsPlaceholder: a push of exactly the placeholder bytes. */
  predicate IsPlaceholder(op: Op): (r: bool)
    ensures r <==> (op.pushData.Some? && |op.pushData.value| == 71 &&
                    forall i :: 0 <= i < |op.pushData.value| ==> op.pushData.value[i] == 0)
  {
    op.pushData.Some? && op.pushData.value == PlaceholderSignature
  }

  /** The operations with every placeholder push replaced by the signature push, all others kept in place. */
  function Substitute(ops: seq<Op>, signatureOp: Op): (r: seq<Op>)
    ensures |r| == |ops|
    ensures forall i :: 0 <= i < |ops| ==> r[i] == if IsPlaceholder(ops[i]) then signatureOp else ops[i]
  {
    if |ops| == 0 then []
    else Substitute(ops[..|ops| - 1], signatureOp) + [if IsPlaceholder(ops[|ops| - 1]) then signatureOp else ops[|ops| - 1]]
  }

  /** No placeholder is left after the substitution when the signature itself is not one. */
  lemma SubstituteLeavesNoPlaceholder(ops: seq<Op>, signature: seq<byte>)
    requires signature != PlaceholderSignature
    ensures forall i :: 0 <= i < |ops| ==> !IsPlaceholder(Substitute(ops, PushOp(signature))[i])
  {
  }

  /** Replacing twice with the same signature changes nothing more. */
  lemma SubstituteIdempotent(ops: seq<Op>, signature: seq<byte>)
    requires signature != PlaceholderSignature
    ensures Substitute(Substitute(ops, PushOp(signature)), PushOp(signature)) == Substitute(ops, PushOp(signature))
  {
    var once := Substitute(ops, PushOp(signature));
    SubstituteLeavesNoPlaceholder(ops, signature);
    var twice := Substitute(once, PushOp(signature));
    assert forall i :: 0 <= i < |once| ==> twice[i] == once[i];
  }

  /** The transaction with its first input spending the given outpoint. */
  function WithFirstPrevOut(tx: Transaction, prevOut: OutPoint): (r: Transaction)
    requires |tx.inputs| > 0
    ensures r.outputs == tx.outputs && r.lockTime == tx.lockTime && |r.inputs| == |tx.inputs|
    ensures r.inputs[0] == TxIn(prevOut, tx.inputs[0].scriptSig) && r.inputs[1..] == tx.inputs[1..]
  {
    tx.(inputs := tx.inputs[0 := TxIn(prevOut, tx.inputs[0].scriptSig)])
  }

  /** The loop of ReSign over the script signature's operations. */
  method ReplacePlaceholders(ops: seq<Op>, signatureOp: Op) returns (resigned: seq<Op>)
    ensures resigned == Substitute(ops, signatureOp)
  {
    resigned := [];
    for i := 0 to |ops|
      invariant resigned == Substitute(ops[..i], signatureOp)
    {
      assert ops[..i + 1][..i] == ops[..i];
      resigned := resigned + [if IsPlaceholder(ops[i]) then signatureOp else ops[i]];
    }
    assert ops[..|ops|] == ops;
  }

  class TrustedBroadcastRequest {
    var previousScriptPubKey: Script
    var transaction: Transaction
    var key: Key
    var broadcastAt: LockTime

    constructor (previousScriptPubKey: Script, transaction: Transaction, key: Key, broadcastAt: LockTime)
      ensures this.previousScriptPubKey == previousScriptPubKey && this.transaction == transaction
      ensures this.key == key && this.broadcastAt == broadcastAt
    {
      this.previousScriptPubKey := previousScriptPubKey;
      this.transaction := transaction;
      this.key := key;
      this.broadcastAt := broadcastAt;
    }

    /**
     * BroadcastableHeight: the larger of the height locks present among the transaction's lock time and
     * BroadcastAt, or 0 when neither is a height lock.
     */
    function BroadcastableHeight(): (h: nat)
      reads this
      ensures transaction.lockTime.IsHeightLock() ==> h >= transaction.lockTime.value
      ensures broadcastAt.IsHeightLock() ==> h >= broadcastAt.value
      ensures || (transaction.lockTime.IsHeightLock() && h == transaction.lockTime.value)
              || (broadcastAt.IsHeightLock() && h == broadcastAt.value)
              || (!transaction.lockTime.IsHeightLock() && !broadcastAt.IsHeightLock() && h == 0)
    {
      if !transaction.lockTime.IsHeightLock() then
        (if broadcastAt.IsHeightLock() then broadcastAt.value else 0)
      else if !broadcastAt.IsHeightLock() then transaction.lockTime.value
      else if transaction.lockTime.value >= broadcastAt.value then transaction.lockTime.value
      else broadcastAt.value
    }

    /**
     * IsBroadcastableAt: the height has reached BroadcastAt and the transaction is final at the next block
     * (isFinal, which reads the clock). Reading BroadcastAt's height fails when it is a time lock.
     */
    function IsBroadcastableAt(height: int, isFinal: bool): (r: Option<bool>)
      reads this
      ensures r.Some? <==> broadcastAt.IsHeightLock()
      ensures r.Some? ==> (r.value <==> height >= broadcastAt.value && isFinal)
    {
      if !broadcastAt.IsHeightLock() then None
      else Some(height >= broadcastAt.value && isFinal)
    }

    /** The redeem script ReSign reads from the last push of the first input's script signature. */
    function ReSignRedeem(chain: Chain): Script
      reads this
      requires |transaction.inputs| > 0 && |transaction.inputs[0].scriptSig.ops| > 0
      requires transaction.inputs[0].scriptSig.ops[|transaction.inputs[0].scriptSig.ops| - 1].pushData.Some?
    {
      var ops := transaction.inputs[0].scriptSig.ops;
      chain.parseScript(ops[|ops| - 1].pushData.value)
    }

    /** The signature ReSign pushes: the key's signature of the first input spending the coin. */
    function ReSignSignature(chain: Chain, coin: Coin): seq<byte>
      reads this
      requires |transaction.inputs| > 0 && |transaction.inputs[0].scriptSig.ops| > 0
      requires transaction.inputs[0].scriptSig.ops[|transaction.inputs[0].scriptSig.ops| - 1].pushData.Some?
    {
      chain.signInput(WithFirstPrevOut(transaction, coin.outpoint), key, ScriptCoin(coin, ReSignRedeem(chain)))
    }

    /**
     * ReSign: a copy of the transaction whose first input spends the coin and whose script signature has
     * each placeholder replaced by a fresh signature; the stored transaction is left as it is. It fails when
     * there is no input, the script signature is empty, its last operation pushes nothing, or the script
     * that push carries does not pay to the coin's output script (ToScriptCoin's check).
     */
    method ReSign(chain: Chain, coin: Coin) returns (r: Result<Transaction, ReSignError>)
      ensures r.Failure? <==>
        || |transaction.inputs| == 0
        || |transaction.inputs[0].scriptSig.ops| == 0
        || transaction.inputs[0].scriptSig.ops[|transaction.inputs[0].scriptSig.ops| - 1].pushData.None?
        || coin.txOut.scriptPubKey != chain.p2shScriptPubKey(ReSignRedeem(chain))
      ensures r == Failure(NoInput) <==> |transaction.inputs| == 0
      ensures r == Failure(EmptyScriptSig) <==>
        |transaction.inputs| > 0 && |transaction.inputs[0].scriptSig.ops| == 0
      ensures r == Failure(NoRedeemPush) <==>
        && |transaction.inputs| > 0 && |transaction.inputs[0].scriptSig.ops| > 0
        && transaction.inputs[0].scriptSig.ops[|transaction.inputs[0].scriptSig.ops| - 1].pushData.None?
      ensures r.Success? ==>
        && r.value.outputs == transaction.outputs && r.value.lockTime == transaction.lockTime
        && |r.value.inputs| == |transaction.inputs| && r.value.inputs[1..] == transaction.inputs[1..]
        && r.value.inputs[0].prevOut == coin.outpoint
        && r.value.inputs[0].scriptSig.ops ==
             Substitute(transaction.inputs[0].scriptSig.ops, PushOp(ReSignSignature(chain, coin)))
    {
      if |transaction.inputs| == 0 {
        return Failure(NoInput);
      }
      var tx := WithFirstPrevOut(transaction, coin.outpoint);
      var ops := tx.inputs[0].scriptSig.ops;
      if |ops| == 0 {
        return Failure(EmptyScriptSig);
      }
      var last := ops[|ops| - 1];
      if last.pushData.None? {
        return Failure(NoRedeemPush);
      }
      var redeem := chain.parseScript(last.pushData.value);
      if coin.txOut.scriptPubKey != chain.p2shScriptPubKey(redeem) {
        return Failure(RedeemMismatch);
      }
      var scriptCoin := ScriptCoin(coin, redeem);
      var signature := chain.signInput(tx, key, scriptCoin);
      var resigned := ReplacePlaceholders(ops, PushOp(signature));
      tx := tx.(inputs := tx.inputs[0 := TxIn(coin.outpoint, Script(resigned))]);
      r := Success(tx);
    }
  }

  /** The height part of IsBroadcastableAt: never before BroadcastAt's height. */
  lemma NotBroadcastableBeforeHeight(request: TrustedBroadcastRequest, height: int, isFinal: bool)
    requires request.broadcastAt.IsHeightLock() && height < request.broadcastAt.value
    ensures request.IsBroadcastableAt(height, isFinal) == Some(false)
  {
  }
}
