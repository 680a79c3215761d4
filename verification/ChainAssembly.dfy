/** `create_block`: which transactions it admits, and that the block it builds always executes. */
module ChainAssembly {
  import opened Wrappers
  import opened Ledger
  import opened Chain
  import Slashing

  /** `validate_transaction` on the plain-transfer path. */
  predicate ValidTx(rates: Rates, accounts: Accounts, core: TxCore) {
    && core.sender != "" && core.recipient != ""
    && core.value >= 0.0
    && core.gas >= rates.baseGas
    && core.nonce == Nonce(accounts, core.sender)
    && Balance(accounts, core.sender) >= core.value + Fee(rates, core)
    && rates.signatureOk(core)
  }

  /** `_validate_tx_for_block`: the nonce is also compared with the cursor of this block. */
  predicate ValidForBlock(rates: Rates, accounts: Accounts, cursor: map<string, int>, core: TxCore) {
    && core.nonce == (if core.sender in cursor then cursor[core.sender] else Nonce(accounts, core.sender))
    && ValidTx(rates, accounts, core)
  }

  /** The admission loop of `create_block`. */
  method AdmitTransactions(rates: Rates, accounts: Accounts, txs: seq<Tx>) returns (admitted: seq<Tx>)
    ensures admitted == Admitted(rates, accounts, txs)
    ensures exists idx :: Picks(rates, accounts, txs, admitted, idx)
  {
    hide Picks;
    ghost var picked := AdmittedIff(rates, accounts, txs);
    admitted := [];
    var cursor: map<string, int> := map[];
    for i := 0 to |txs|
      invariant admitted == Admitted(rates, accounts, txs[..i])
      invariant forall s :: s in cursor <==> SenderIn(s, admitted)
      invariant forall s :: s in cursor ==> cursor[s] == Nonce(accounts, s) + 1
    {
      var tx := txs[i];
      assert txs[..i + 1][..i] == txs[..i];
      if ValidForBlock(rates, accounts, cursor, tx.core) {
        SenderInAppend(admitted, tx);
        admitted := admitted + [tx];
        cursor := cursor[tx.core.sender := tx.core.nonce + 1];
      }
    }
    assert txs[..|txs|] == txs;
  }

  predicate SenderIn(s: string, txs: seq<Tx>) {
    exists i :: 0 <= i < |txs| && txs[i].core.sender == s
  }

  lemma SenderInAppend(txs: seq<Tx>, tx: Tx)
    ensures forall s :: SenderIn(s, txs + [tx]) <==> SenderIn(s, txs) || s == tx.core.sender
  {
    var longer := txs + [tx];
    assert longer[|txs|] == tx;
    forall s | SenderIn(s, txs) ensures SenderIn(s, longer) {
      var i :| 0 <= i < |txs| && txs[i].core.sender == s;
      assert longer[i].core.sender == s;
    }
  }

  /**
   What the loop amounts to: the first valid transaction of each sender, in order. The nonce
   cursor never lets a second one through, because `validate_transaction` still compares with
   the nonce before the block.
   */
  function Admitted(rates: Rates, accounts: Accounts, txs: seq<Tx>): (r: seq<Tx>) {
    if txs == [] then []
    else
      var rest, tx := Admitted(rates, accounts, txs[..|txs| - 1]), txs[|txs| - 1];
      if ValidTx(rates, accounts, tx.core) && !SenderIn(tx.core.sender, rest) then rest + [tx] else rest
  }

  ghost predicate DistinctSenders(txs: seq<Tx>) {
    forall i, j :: 0 <= i < j < |txs| ==> txs[i].core.sender != txs[j].core.sender
  }

  ghost predicate AllValid(rates: Rates, accounts: Accounts, txs: seq<Tx>) {
    forall i :: 0 <= i < |txs| ==> ValidTx(rates, accounts, txs[i].core)
  }

  lemma {:induction false} AdmittedAreIndependent(rates: Rates, accounts: Accounts, txs: seq<Tx>)
    ensures var a := Admitted(rates, accounts, txs);
            DistinctSenders(a) && AllValid(rates, accounts, a)
  {
    hide ValidTx;
    if txs != [] {
      var rest := Admitted(rates, accounts, txs[..|txs| - 1]);
      AdmittedAreIndependent(rates, accounts, txs[..|txs| - 1]);
      forall i | 0 <= i < |rest| ensures SenderIn(rest[i].core.sender, rest) {}
    }
  }

  /** What makes a transaction acceptable before the block, read from its fields and the account table. */
  ghost predicate Acceptable(rates: Rates, accounts: Accounts, core: TxCore) {
    && core.sender != "" && core.recipient != "" && core.value >= 0.0 && core.gas >= rates.baseGas
    && rates.signatureOk(core)
    && if core.sender in accounts
       then core.nonce == accounts[core.sender].nonce
            && accounts[core.sender].balance >= core.value + core.gas as real * rates.gasPrice
       else core.nonce == 0 && 0.0 >= core.value + core.gas as real * rates.gasPrice
  }

  lemma ValidIsAcceptable(rates: Rates, accounts: Accounts, core: TxCore)
    ensures ValidTx(rates, accounts, core) <==> Acceptable(rates, accounts, core)
  {
  }

  /** Transaction `i` is acceptable and the first such of its sender. */
  ghost predicate Chosen(rates: Rates, accounts: Accounts, txs: seq<Tx>, i: nat)
    requires i < |txs|
  {
    && Acceptable(rates, accounts, txs[i].core)
    && forall j :: 0 <= j < i && txs[j].core.sender == txs[i].core.sender ==> !Acceptable(rates, accounts, txs[j].core)
  }

  /** `idx` lists, in order, the positions at which the admitted transactions stood. */
  ghost predicate Picks(rates: Rates, accounts: Accounts, txs: seq<Tx>, admitted: seq<Tx>, idx: seq<nat>) {
    && |idx| == |admitted|
    && (forall k :: 0 <= k < |idx| ==> idx[k] < |txs| && admitted[k] == txs[idx[k]])
    && (forall k, l :: 0 <= k < l < |idx| ==> idx[k] < idx[l])
    && (forall i: nat :: i < |txs| ==> (i in idx <==> Chosen(rates, accounts, txs, i)))
  }

  /**
   Exactly which transactions get into the block: it is the subsequence of those that are
   acceptable and the first acceptable one of their sender; no acceptable sender is left out.
   */
  lemma {:induction false} AdmittedIff(rates: Rates, accounts: Accounts, txs: seq<Tx>) returns (idx: seq<nat>)
    ensures Picks(rates, accounts, txs, Admitted(rates, accounts, txs), idx)
  {
    hide Acceptable, ValidTx;
    if txs == [] {
      idx := [];
    } else {
      var last := |txs| - 1;
      var before := txs[..last];
      var rest, tx := Admitted(rates, accounts, before), txs[last];
      var shorter := AdmittedIff(rates, accounts, before);
      ValidIsAcceptable(rates, accounts, tx.core);
      SenderIsTaken(rates, accounts, txs, rest, shorter);
      idx := if Chosen(rates, accounts, txs, last) then shorter + [last] else shorter;
      PicksOneMore(rates, accounts, txs, rest, shorter);
    }
  }

  lemma PicksOneMore(rates: Rates, accounts: Accounts, txs: seq<Tx>, rest: seq<Tx>, idx: seq<nat>)
    requires txs != [] && Picks(rates, accounts, txs[..|txs| - 1], rest, idx)
    ensures var last := |txs| - 1;
            if Chosen(rates, accounts, txs, last) then Picks(rates, accounts, txs, rest + [txs[last]], idx + [last as nat])
            else Picks(rates, accounts, txs, rest, idx)
  {
    hide Acceptable;
    var last := |txs| - 1;
    forall i: nat | i < last ensures Chosen(rates, accounts, txs, i) <==> Chosen(rates, accounts, txs[..last], i) {
      SameChoice(rates, accounts, txs, last, i);
    }
    hide Chosen;
    var longer := idx + [last as nat];
    assert forall i: nat :: i in longer <==> i in idx || i == last;
  }

  lemma SameChoice(rates: Rates, accounts: Accounts, txs: seq<Tx>, n: nat, i: nat)
    requires i < n <= |txs|
    ensures Chosen(rates, accounts, txs, i) <==> Chosen(rates, accounts, txs[..n], i)
  {
    hide Acceptable;
  }

  /** The sender of the last transaction is among those admitted before exactly if it had an acceptable one. */
  lemma SenderIsTaken(rates: Rates, accounts: Accounts, txs: seq<Tx>, rest: seq<Tx>, idx: seq<nat>)
    requires txs != [] && Picks(rates, accounts, txs[..|txs| - 1], rest, idx)
    ensures SenderIn(txs[|txs| - 1].core.sender, rest) <==>
              exists j :: 0 <= j < |txs| - 1 && txs[j].core.sender == txs[|txs| - 1].core.sender
                          && Acceptable(rates, accounts, txs[j].core)
  {
    hide Acceptable;
    var last := |txs| - 1;
    var s := txs[last].core.sender;
    if SenderIn(s, rest) {
      var k :| 0 <= k < |rest| && rest[k].core.sender == s;
      assert idx[k] in idx;
      assert Chosen(rates, accounts, txs[..last], idx[k]);
      assert txs[idx[k]].core.sender == s;
    }
    if j :| 0 <= j < last && txs[j].core.sender == s && Acceptable(rates, accounts, txs[j].core) {
      var first := FirstAcceptable(rates, accounts, txs[..last], s, j);
      assert first in idx;
      var k :| 0 <= k < |idx| && idx[k] == first;
      assert rest[k].core.sender == s;
    }
  }

  lemma {:induction false} FirstAcceptable(rates: Rates, accounts: Accounts, txs: seq<Tx>, s: string, j: nat) returns (i: nat)
    requires j < |txs| && txs[j].core.sender == s && Acceptable(rates, accounts, txs[j].core)
    ensures i < |txs| && txs[i].core.sender == s && Chosen(rates, accounts, txs, i)
    decreases j
  {
    hide Acceptable;
    if k :| 0 <= k < j && txs[k].core.sender == s && Acceptable(rates, accounts, txs[k].core) {
      i := FirstAcceptable(rates, accounts, txs, s, k);
    } else {
      i := j;
    }
  }

  // ----- sequential execution -----

  /** Someone else's transfer never lowers a balance and never touches a nonce. */
  lemma OthersOnlyGain(rates: Rates, accounts: Accounts, core: TxCore, payee: string, x: string)
    requires Sane(rates) && core.value >= 0.0 && core.gas >= 0 && x != core.sender
    ensures Balance(Transfer(rates, accounts, core, payee), x) >= Balance(accounts, x)
    ensures Nonce(Transfer(rates, accounts, core, payee), x) == Nonce(accounts, x)
  {
    hide Fee, Burn;
    FeeParts(rates, core);
  }

  lemma {:induction false} IndependentTxsExecute(
      rates: Rates, accounts: Accounts, txs: seq<Tx>, height: int, proposer: string)
    requires Sane(rates) && DistinctSenders(txs) && AllValid(rates, accounts, txs)
    ensures var r := ApplyTxs(rates, accounts, txs, height, proposer);
            && r.Executed?
            && (forall x :: !SenderIn(x, txs) ==>
                  Balance(r.accounts, x) >= Balance(accounts, x) && Nonce(r.accounts, x) == Nonce(accounts, x))
  {
    hide Transfer, Fee, Stamp, Balance, Nonce;
    if txs != [] {
      var last := |txs| - 1;
      var tx := txs[last];
      IndependentTxsExecute(rates, accounts, txs[..last], height, proposer);
      var mid := ApplyTxs(rates, accounts, txs[..last], height, proposer).accounts;
      assert !SenderIn(tx.core.sender, txs[..last]);
      assert ValidTx(rates, accounts, tx.core);
      assert ApplyTx(rates, mid, tx, height, proposer).Applied?;
      SenderInAppend(txs[..last], tx);
      assert txs[..last] + [tx] == txs;
      forall x | !SenderIn(x, txs)
        ensures Balance(Transfer(rates, mid, tx.core, Payee(rates, proposer)), x) >= Balance(accounts, x)
        ensures Nonce(Transfer(rates, mid, tx.core, Payee(rates, proposer)), x) == Nonce(accounts, x)
      {
        OthersOnlyGain(rates, mid, tx.core, Payee(rates, proposer), x);
      }
    }
  }

  /** The parent hash of a first block: 64 zeros. */
  const GENESIS_HASH := "0000000000000000000000000000000000000000000000000000000000000000"

  ghost function CreateBlock(cfg: Config, ch: ChainState, txs: seq<Tx>, proposer: string, now: int, extra: string): Block {
    var admitted := Admitted(cfg.rates, ch.accounts, txs);
    if ch.blocks == map[] then
      Block(1, GENESIS_HASH, proposer, admitted, if now > 1 then now else 1, extra, "", "", 0.0)
    else
      var last := ch.blocks[Tip(ch.blocks)];
      Block(last.height + 1, last.hash, proposer, admitted,
            if now > last.timestamp + 1 then now else last.timestamp + 1, extra, "", "", 0.0)
  }

  /**
   Blocks from `create_block` always execute. Each transaction was checked only against the
   state before the block, yet `add_block` on that state accepts the block, whatever the
   mempool offered and however far the accounts are from the replay, unless the proposer itself
   is refused.
   */
  lemma CreatedBlockExecutes(cfg: Config, ch: ChainState, txs: seq<Tx>, proposer: string, now: int, extra: string,
                             authorized: bool)
    requires Table(ch.blocks) && Sane(cfg.rates)
    ensures var b := CreateBlock(cfg, ch, txs, proposer, now, extra);
            AddBlock(cfg, ch, b, false, authorized).ok <==>
              (NamedMiner(b) ==>
                 authorized &&
                 (ch.slashing.Some? ==>
                    && proposer !in ch.slashing.value.slashed
                    && proposer !in Slashing.ProposersAt(ch.slashing.value, b.height)))
  {
    hide Sealed, ApplyTxs, Admitted, ApplyReward, Put, Credited;
    var b := CreateBlock(cfg, ch, txs, proposer, now, extra);
    AdmittedAreIndependent(cfg.rates, ch.accounts, txs);
    IndependentTxsExecute(cfg.rates, ch.accounts, b.txs, b.height, b.miner);
    assert Fits(ch, b);
    assert AllSigned(cfg.rates, b.txs) by {
      forall i | 0 <= i < |b.txs| ensures cfg.rates.signatureOk(b.txs[i].core) {
        assert ValidTx(cfg.rates, ch.accounts, b.txs[i].core);
      }
    }
  }

  /** The header of a created block: on top of the last row, by the proposer, later than the parent and not before now. */
  lemma CreatedHeader(cfg: Config, ch: ChainState, txs: seq<Tx>, proposer: string, now: int, extra: string)
    ensures var b := CreateBlock(cfg, ch, txs, proposer, now, extra);
            && b.miner == proposer && b.extra == extra && b.txs == Admitted(cfg.rates, ch.accounts, txs)
            && (ch.blocks == map[] ==> b.height == 1 && b.parentHash == GENESIS_HASH && b.timestamp == if now > 1 then now else 1)
            && (ch.blocks != map[] ==>
                  var last := ch.blocks[Tip(ch.blocks)];
                  && b.height == last.height + 1 && b.parentHash == last.hash
                  && b.timestamp > last.timestamp && b.timestamp >= now
                  && (b.timestamp == now || b.timestamp == last.timestamp + 1))
  {
    hide Admitted;
  }
}
