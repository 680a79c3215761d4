/**
 The `Blockchain` object of core/blockchain.py: account table and stored blocks as fields,
 `atomic()` as restore-on-failure, and methods proved equal to the functions of Chain.
 */
module Blockchain {
  import opened Wrappers
  import opened Ledger
  import opened Chain
  import ChainRuns
  import Slashing
  import Sums

  class Node {
    const cfg: Config
    var accounts: Accounts
    var blocks: Store
    var baseline: int
    var slashing: Option<Slashing.State>

    ghost function Value(): ChainState
      reads this
    {
      ChainState(accounts, blocks, baseline, slashing)
    }

    constructor (cfg: Config, genesis: Block, slashing: Option<Slashing.State>)
      ensures Table(blocks) && this.cfg == cfg && Value() == Genesis(cfg, genesis, slashing)
    {
      this.cfg := cfg;
      this.accounts := LiveAlloc(cfg);
      this.blocks := map[0 := genesis.(height := 0)];
      this.baseline := 0;
      this.slashing := slashing;
    }

    /** SELECT MAX(height). */
    method GetChainTip() returns (tip: int)
      ensures tip == Tip(blocks)
    {
      if blocks == map[] { return 0; }
      var left := blocks.Keys;
      Sums.SomeKey(left);
      tip :| tip in left;
      while left != {}
        invariant left <= blocks.Keys && tip in blocks && forall k :: k in blocks && k !in left ==> k <= tip
        decreases |left|
      {
        Sums.SomeKey(left);
        var k :| k in left;
        if k > tip { tip := k; }
        left := left - {k};
      }
    }

    /** Writes the row, and credits what the block burned to the burn address. */
    method PersistBlock(row: Block)
      modifies this`accounts, this`blocks
      ensures blocks == Put(old(blocks), row) && accounts == Credited(cfg.rates, old(accounts), row)
    {
      blocks := Put(blocks, row);
      if row.totalBurned > 0.0 && cfg.rates.burnAddress != "" {
        BalanceDelta(cfg.rates.burnAddress, row.totalBurned);
      }
    }

    method BalanceDelta(a: string, delta: real)
      modifies this`accounts
      ensures accounts == ApplyDelta(old(accounts), a, delta)
    {
      if a in accounts {
        accounts := accounts[a := accounts[a].(balance := Clamp(accounts[a].balance + delta))];
      } else {
        accounts := accounts[a := Account(Clamp(delta), 0)];
      }
    }

    method NonceIncrement(a: string)
      modifies this`accounts
      ensures accounts == BumpNonce(old(accounts), a)
    {
      if a in accounts {
        accounts := accounts[a := accounts[a].(nonce := accounts[a].nonce + 1)];
      } else {
        accounts := accounts[a := Account(0.0, 1)];
      }
    }

    method TotalSupply() returns (total: real)
      ensures total == Total(accounts)
    {
      total := 0.0;
      var left := accounts;
      while left != map[]
        invariant left.Keys <= accounts.Keys && forall a :: a in left ==> left[a] == accounts[a]
        invariant total + Total(left) == Total(accounts)
        decreases |left|
      {
        var a :| a in left;
        TotalRemove(left, a);
        total := total + left[a].balance;
        left := left - {a};
      }
    }

    method ApplyTransaction(tx: Tx, height: int, proposer: string) returns (r: TxResult)
      modifies this`accounts
      ensures match ApplyTx(cfg.rates, old(accounts), tx, height, proposer)
              case Refused(e) => r == Refused(e) && accounts == old(accounts)
              case Applied(after, stamped) => r == Applied(after, stamped) && accounts == after
    {
      hide ApplyDelta, BumpNonce;
      var payee := Payee(cfg.rates, proposer);
      var fee := tx.core.gas as real * cfg.rates.gasPrice;
      var burn := fee * cfg.rates.burnRate;
      assert fee == Fee(cfg.rates, tx.core) && burn == Burn(cfg.rates, tx.core);
      hide Fee, Burn;
      var minerFee := fee - burn;
      if tx.core.nonce != Nonce(accounts, tx.core.sender) { return Refused(NonceMismatch); }
      var cost := tx.core.value + fee;
      if Balance(accounts, tx.core.sender) < cost { return Refused(InsufficientFunds); }
      if !cfg.rates.signatureOk(tx.core) { return Refused(InvalidSignature); }
      BalanceDelta(tx.core.sender, -cost);
      BalanceDelta(tx.core.recipient, tx.core.value);
      BalanceDelta(payee, minerFee);
      if burn > 0.0 && cfg.rates.burnAddress != "" {
        BalanceDelta(cfg.rates.burnAddress, burn);
      }
      NonceIncrement(tx.core.sender);
      return Applied(accounts, tx.(fee := fee, burned := burn, gasUsed := tx.core.gas, blockHeight := height));
    }

    method ApplyBlockReward(proposer: string) returns (reward: real)
      modifies this`accounts
      ensures reward == Reward(cfg.rates, old(accounts))
      ensures accounts == Ledger.ApplyReward(cfg.rates, old(accounts), proposer)
    {
      var supply := TotalSupply();
      reward := cfg.rates.blockReward;
      if supply + reward > cfg.rates.maxSupply {
        reward := Clamp(cfg.rates.maxSupply - supply);
      }
      if reward > 0.0 {
        BalanceDelta(proposer, reward);
      }
    }

    /** The transaction loop and the reward, shared by block execution and replay. */
    method ExecuteBlock(b: Block) returns (ok: bool, txs: seq<Tx>, burned: real)
      modifies this`accounts
      ensures match ExecBlock(cfg.rates, old(accounts), b)
              case Failed(_) => !ok
              case Executed(after, done) => ok && accounts == after && txs == done && burned == TotalBurned(done)
    {
      hide ApplyTx, Ledger.ApplyReward;
      txs, burned := [], 0.0;
      for i := 0 to |b.txs|
        invariant ApplyTxs(cfg.rates, old(accounts), b.txs[..i], b.height, b.miner) == Executed(accounts, txs)
        invariant burned == TotalBurned(txs)
      {
        assert b.txs[..i + 1][..i] == b.txs[..i];
        var r := ApplyTransaction(b.txs[i], b.height, b.miner);
        if r.Refused? {
          FailureIsFinal(cfg.rates, old(accounts), b.txs, i + 1, b.height, b.miner);
          return false, [], 0.0;
        }
        burned := burned + r.tx.burned;
        assert (txs + [r.tx])[..|txs|] == txs;
        txs := txs + [r.tx];
      }
      assert b.txs[..|b.txs|] == b.txs;
      var _ := ApplyBlockReward(b.miner);
      ok := true;
    }

    /** The checks of height, parent, proposer and signatures, before anything is executed. */
    method Precheck(b: Block, authorized: bool) returns (ok: bool)
      ensures ok <==> Fits(Value(), b) && ProposerOk(Value(), b, authorized) && AllSigned(cfg.rates, b.txs)
    {
      if b.height in blocks { return false; }
      if blocks != map[] {
        var tip := GetChainTip();
        if b.height != blocks[tip].height + 1 || b.parentHash != blocks[tip].hash { return false; }
      } else if b.height != 0 && b.height != 1 {
        return false;
      }
      if NamedMiner(b) {
        if slashing.Some? && b.miner in slashing.value.slashed { return false; }
        if !authorized { return false; }
      }
      return AllSigned(cfg.rates, b.txs);
    }

    method AddBlock(b: Block, preserve: bool, authorized: bool) returns (ok: bool)
      modifies this
      ensures Response(Value(), ok) == Chain.AddBlock(cfg, old(Value()), b, preserve, authorized)
      ensures old(Table(blocks)) ==> Table(blocks)
    {
      hide ExecBlock, TotalBurned, Fits, Credited, Put, Table;
      ghost var before := Value();
      if Table(blocks) { ChainRuns.ApplyKeepsTable(cfg, before, ChainRuns.Add(b, preserve, authorized)); }
      var fits := Precheck(b, authorized);
      if !fits { return false; }

      var saved := accounts;
      var done, txs, burned := ExecuteBlock(b);
      if !done {
        accounts := saved;
        return false;
      }
      var computed := cfg.root(accounts);
      if preserve && b.stateRoot != "" && StrictRoot(cfg, ChainState(saved, blocks, baseline, slashing), b)
         && b.stateRoot != computed {
        accounts := saved;
        return false;
      }
      var row := b.(txs := txs, totalBurned := burned, stateRoot := computed);
      row := row.(hash := if preserve && b.hash != "" then b.hash else cfg.blockHash(row.(hash := "")));
      if slashing.Some? && NamedMiner(b) {
        var reply := Slashing.RecordProposal(slashing.value, b.miner, b.height);
        slashing := Some(reply.s);
        if !reply.ok {
          accounts := saved;
          return false;
        }
      }
      PersistBlock(row);
      return true;
    }

    /** Executes the rows 1..h over the genesis allocation; `done` is false at a missing row or a failing block. */
    method Replay(h: int) returns (done: bool)
      modifies this`accounts
      ensures match StateAt(cfg.rates, ReplayAlloc(cfg), blocks, h)
              case None => !done
              case Some(replayed) => done && accounts == replayed
    {
      hide ExecBlock;
      accounts := ReplayAlloc(cfg);
      var i := 0;
      while i < h
        invariant i <= h || i == 0
        invariant StateAt(cfg.rates, ReplayAlloc(cfg), blocks, i) == Some(accounts)
      {
        i := i + 1;
        if i !in blocks {
          ReplayFailureIsFinal(cfg.rates, ReplayAlloc(cfg), blocks, i, h);
          return false;
        }
        var executed, _, _ := ExecuteBlock(blocks[i]);
        if !executed {
          ReplayFailureIsFinal(cfg.rates, ReplayAlloc(cfg), blocks, i, h);
          return false;
        }
      }
      return true;
    }

    /** Rolls the chain back to height `h` by replaying it from the genesis allocation. */
    method ReorgToAncestor(h: int, floor: int) returns (ok: bool)
      modifies this`accounts, this`blocks
      ensures Response(Value(), ok) == ReorgTo(cfg, old(Value()), h, floor)
      ensures old(Table(blocks)) ==> Table(blocks)
    {
      hide StateAt;
      if floor > 0 && h < floor { return false; }
      var tip := GetChainTip();
      if h > tip { return true; }

      var savedAccounts, savedBlocks := accounts, blocks;
      if h < tip { blocks := Below(blocks, h); }
      assert blocks == Below(savedBlocks, h);
      StateAtPrefix(cfg.rates, ReplayAlloc(cfg), savedBlocks, blocks, h);
      var done := Replay(h);
      if !done || (h in blocks && blocks[h].stateRoot != "" && blocks[h].stateRoot != cfg.root(accounts)) {
        accounts, blocks := savedAccounts, savedBlocks;
        return false;
      }
      return true;
    }

    /** Called on an account table that may have drifted away from the chain. */
    method EnsureStateAtTip(floor: int) returns (ok: bool)
      modifies this`accounts, this`blocks
      ensures Response(Value(), ok) == Chain.EnsureStateAtTip(cfg, old(Value()), floor)
      ensures old(Table(blocks)) ==> Table(blocks)
    {
      hide ReorgTo;
      var tip := GetChainTip();
      if tip <= 0 || tip !in blocks { return true; }
      var expected := blocks[tip].stateRoot;
      if expected == "" || expected == cfg.root(accounts) { return true; }
      ok := ReorgToAncestor(tip, floor);
    }
  }

  /** A failing prefix of the transactions fails the block. */
  lemma {:induction false} FailureIsFinal(
      rates: Rates, accounts: Accounts, txs: seq<Tx>, i: nat, height: int, proposer: string)
    requires i <= |txs| && ApplyTxs(rates, accounts, txs[..i], height, proposer).Failed?
    ensures ApplyTxs(rates, accounts, txs, height, proposer).Failed?
    decreases |txs|
  {
    hide ApplyTx;
    if i < |txs| {
      assert txs[..|txs| - 1][..i] == txs[..i];
      FailureIsFinal(rates, accounts, txs[..|txs| - 1], i, height, proposer);
    } else {
      assert txs[..i] == txs;
    }
  }

  lemma {:induction false} ReplayFailureIsFinal(rates: Rates, start: Accounts, blocks: Store, i: int, h: int)
    requires i <= h && StateAt(rates, start, blocks, i).None?
    ensures StateAt(rates, start, blocks, h).None?
    decreases h - i
  {
    hide ExecBlock;
    if i < h { ReplayFailureIsFinal(rates, start, blocks, i, h - 1); }
  }
}
