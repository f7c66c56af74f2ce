/**
 * The NBitcoin values the tumbler's sessions and broadcast requests handle: keys, script operations,
 * transactions, lock times and coins. NBitcoin itself is not part of this model; the computations it
 * performs that the modelled code only calls (public key derivation, transaction hashing, P2SH script
 * derivation, script parsing and serialisation, and input signing) are the uninterpreted functions of `Chain`.
 */
module Bitcoin {
  import opened Wrappers
  import opened Bytes

  /** A private key, known by its secret. */
  datatype Key = Key(secret: nat)

  datatype PubKey = PubKey(point: nat)

  /** A script operation: its opcode and, for a push, the bytes pushed. */
  datatype Op = Op(code: byte, pushData: Option<seq<byte>>)

  /** A script, as the list of operations Script.ToOps gives. */
  datatype Script = Script(ops: seq<Op>)

  datatype OutPoint = OutPoint(txid: nat, n: nat)

  /** An output: an amount in satoshis and the script that locks it. */
  datatype TxOut = TxOut(value: int, scriptPubKey: Script)

  datatype TxIn = TxIn(prevOut: OutPoint, scriptSig: Script)

  /** A lock time value; below 500 000 000 it is a block height, otherwise a time stamp. */
  datatype LockTime = LockTime(value: nat) {
    predicate IsHeightLock()
    {
      value < LockTimeThreshold
    }
  }

  const LockTimeThreshold: nat := 500_000_000

  datatype Transaction = Transaction(inputs: seq<TxIn>, outputs: seq<TxOut>, lockTime: LockTime)

  /** An unspent output together with where it is. */
  datatype Coin = Coin(outpoint: OutPoint, txOut: TxOut)

  /** A coin paying to a script hash, with the script that redeems it. */
  datatype ScriptCoin = ScriptCoin(coin: Coin, redeem: Script)

  /** The NBitcoin computations the model treats as given functions. */
  datatype Chain = Chain(
    pubKeyOf: Key -> PubKey,
    txHash: Transaction -> nat,
    p2shScriptPubKey: Script -> Script,
    parseScript: seq<byte> -> Script,
    scriptBytes: Script -> seq<byte>,
    signInput: (Transaction, Key, ScriptCoin) -> seq<byte>)

  /** The opcodes that push data: the length itself below 76, then OP_PUSHDATA1, 2 and 4. */
  function PushCode(length: nat): (code: byte)
    ensures length < 76 ==> code == length
    ensures length >= 76 ==> code in {0x4c, 0x4d, 0x4e}
  {
    if length < 76 then length
    else if length < 0x100 then 0x4c
    else if length < 0x1_0000 then 0x4d
    else 0x4e
  }

  /** Op.GetPushOp: the operation pushing the given bytes. */
  function PushOp(data: seq<byte>): (op: Op)
    ensures op.pushData == Some(data)
  {
    Op(PushCode(|data|), Some(data))
  }

  /** Transaction.Outputs.AsCoins: each output with its outpoint in the transaction. */
  function OutputCoin(chain: Chain, tx: Transaction, n: nat): (c: Coin)
    requires n < |tx.outputs|
    ensures c.txOut == tx.outputs[n] && c.outpoint == OutPoint(chain.txHash(tx), n)
  {
    Coin(OutPoint(chain.txHash(tx), n), tx.outputs[n])
  }
}
