/**
 * The escrow side of a tumbler session (NTumbleBit/EscrowReceiver.cs): the escrowed coin and the key that
 * spends it, configured together, and the channel id derived from the coin's script.
 */
module Escrow {
  import opened Wrappers
  import opened Bytes
  import opened Bitcoin

  /** EscrowReceiver with its State's two properties held as fields (null is None). */
  class EscrowReceiver {
    var escrowedCoin: Option<ScriptCoin>
    var escrowKey: Option<Key>

    constructor ()
      ensures escrowedCoin.None? && escrowKey.None?
    {
      escrowedCoin := None;
      escrowKey := None;
    }

    /**
     * ConfigureEscrowedCoin: stores the key, then the coin, each after its own null check; a null coin is
     * reported after the key has already been stored.
     */
    method ConfigureEscrowedCoin(escrowedCoin: Option<ScriptCoin>, escrowKey: Option<Key>) returns (r: Outcome<string>)
      modifies this
      ensures escrowKey.None? ==> r == Fail("escrowKey") && unchanged(this)
      ensures escrowKey.Some? && escrowedCoin.None? ==>
        r == Fail("escrowedCoin") && this.escrowKey == escrowKey && this.escrowedCoin == old(this.escrowedCoin)
      ensures escrowKey.Some? && escrowedCoin.Some? ==>
        r == Pass && this.escrowKey == escrowKey && this.escrowedCoin == escrowedCoin
    {
      if escrowKey.None? {
        return Fail("escrowKey");
      }
      this.escrowKey := escrowKey;
      if escrowedCoin.None? {
        return Fail("escrowedCoin");
      }
      this.escrowedCoin := escrowedCoin;
      r := Pass;
    }

    /** Id: the hex of the escrowed coin's output script; reading it without a coin fails. */
    function Id(chain: Chain): (r: Option<string>)
      reads this
      ensures r.Some? <==> escrowedCoin.Some?
      ensures r.Some? ==> |r.value| == 2 * |chain.scriptBytes(escrowedCoin.value.coin.txOut.scriptPubKey)|
      ensures r.Some? ==> FromHex(r.value) == chain.scriptBytes(escrowedCoin.value.coin.txOut.scriptPubKey)
    {
      match escrowedCoin
      case None => None
      case Some(c) =>
        FromHexToHex(chain.scriptBytes(c.coin.txOut.scriptPubKey));
        Some(ToHex(chain.scriptBytes(c.coin.txOut.scriptPubKey)))
    }

    /** EscrowedCoin: the coin ConfigureEscrowedCoin stored, or None before it has. */
    function EscrowedCoin(): (r: Option<ScriptCoin>)
      reads this
    {
      escrowedCoin
    }
  }

  /** Two receivers share an id only when their coins' scripts serialise alike. */
  lemma SameIdSameScript(chain: Chain, a: EscrowReceiver, b: EscrowReceiver)
    requires a.Id(chain).Some? && a.Id(chain) == b.Id(chain)
    ensures chain.scriptBytes(a.escrowedCoin.value.coin.txOut.scriptPubKey) ==
      chain.scriptBytes(b.escrowedCoin.value.coin.txOut.scriptPubKey)
  {
  }
}
