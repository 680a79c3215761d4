/**
 Start-up falls back to the miner's address when no founder is configured, replay does not.
 A chain of one block can be replayed exactly when the two allocations coincide.
 */
module ChainGenesis {
  import opened Wrappers
  import opened Ledger
  import opened Chain
  import opened ChainDrift
  import opened ChainRollback

  function EmptyBlock(genesis: Block, miner: string): Block {
    Block(1, genesis.hash, miner, [], 0, "", "", "", 0.0)
  }

  /** The chain of one block without transactions on top of genesis. */
  ghost function OneBlockChain(cfg: Config, genesis: Block, miner: string): ChainState {
    AddBlock(cfg, Genesis(cfg, genesis, None), EmptyBlock(genesis, miner), false, true).ch
  }

  lemma OneBlockChainIs(cfg: Config, genesis: Block, miner: string)
    ensures var blocks := OneBlockChain(cfg, genesis, miner).blocks;
            && Tip(blocks) == 1 && 1 in blocks
            && blocks[1].miner == miner && blocks[1].txs == []
            && blocks[1].stateRoot == cfg.root(ApplyReward(cfg.rates, LiveAlloc(cfg), miner))
  {
    hide ApplyReward;
    var start, b := Genesis(cfg, genesis, None), EmptyBlock(genesis, miner);
    assert Tip(start.blocks) == 0 && Fits(start, b);
    assert ApplyTxs(cfg.rates, start.accounts, b.txs, b.height, b.miner) == Executed(start.accounts, []);
    assert AddBlock(cfg, start, b, false, true).ok;
    AddedIs(cfg, start, b, false, true);
    var blocks := OneBlockChain(cfg, genesis, miner).blocks;
    assert 1 in blocks && forall k :: k in blocks ==> k == 0 || k == 1;
  }

  /** A reward to an address that neither table knows does not make different tables equal. */
  lemma RewardSeparates(rates: Rates, a: Accounts, b: Accounts, miner: string)
    requires miner !in a && miner !in b
    requires ApplyReward(rates, a, miner) == ApplyReward(rates, b, miner)
    ensures a == b
  {
    hide Total;
    var a', b' := ApplyReward(rates, a, miner), ApplyReward(rates, b, miner);
    assert a'.Keys - {miner} == a.Keys && b'.Keys - {miner} == b.Keys;
    forall x | x in a ensures a[x] == b[x] {
      assert a'[x] == a[x] && b'[x] == b[x];
    }
  }

  /**
   For every genesis block and every miner that neither allocation knows: the one-block chain
   can be rolled back to its own tip if and only if start-up and replay allocate the same
   balances. The root has to tell only the two results of that block apart.
   */
  lemma ReplayIsSoundIff(cfg: Config, genesis: Block, miner: string)
    requires miner !in LiveAlloc(cfg) && miner !in ReplayAlloc(cfg)
    requires Separates(cfg, ApplyReward(cfg.rates, LiveAlloc(cfg), miner), ApplyReward(cfg.rates, ReplayAlloc(cfg), miner))
    ensures ReorgTo(cfg, OneBlockChain(cfg, genesis, miner), 1, 0).ok <==> AllocsAgree(cfg)
  {
    hide ApplyReward, OneBlockChain;
    var ch := OneBlockChain(cfg, genesis, miner);
    OneBlockChainIs(cfg, genesis, miner);
    var replayed := ApplyReward(cfg.rates, ReplayAlloc(cfg), miner);
    assert ApplyTxs(cfg.rates, ReplayAlloc(cfg), [], ch.blocks[1].height, miner) == Executed(ReplayAlloc(cfg), []);
    assert StateAt(cfg.rates, ReplayAlloc(cfg), ch.blocks, 0) == Some(ReplayAlloc(cfg));
    assert StateAt(cfg.rates, ReplayAlloc(cfg), ch.blocks, 1) == Some(replayed);
    if replayed == ApplyReward(cfg.rates, LiveAlloc(cfg), miner) {
      RewardSeparates(cfg.rates, LiveAlloc(cfg), ReplayAlloc(cfg), miner);
    }
  }

  /** A configuration that fails: no founder address, so the two allocations name different addresses. */
  lemma MissingFounderBreaksReplay(cfg: Config, genesis: Block)
    requires cfg.founderAddress == "" && cfg.rates.minerAddress == "m"
    requires cfg.alloc("m") == map["m" := Account(1.0, 0)] && cfg.alloc("") == map["default" := Account(1.0, 0)]
    requires Separates(cfg, ApplyReward(cfg.rates, cfg.alloc("m"), "x"), ApplyReward(cfg.rates, cfg.alloc(""), "x"))
    ensures !ReorgTo(cfg, OneBlockChain(cfg, genesis, "x"), 1, 0).ok
  {
    hide ApplyReward, OneBlockChain, ReorgTo;
    assert "m" in LiveAlloc(cfg) && "m" !in ReplayAlloc(cfg);
    ReplayIsSoundIff(cfg, genesis, "x");
  }

  /** Start-up allocates for the founder or, without one, for the miner; a rollback always for the founder. */
  lemma Allocations(cfg: Config, genesis: Block)
    requires genesis.stateRoot == ""
    ensures var start := Genesis(cfg, genesis, None);
            && start.accounts == cfg.alloc(if cfg.founderAddress == "" then cfg.rates.minerAddress else cfg.founderAddress)
            && start.blocks == map[0 := genesis.(height := 0)] && start.baseline == 0
            && ReorgTo(cfg, start, 0, 0) == Response(start.(accounts := cfg.alloc(cfg.founderAddress)), true)
  {
    var start := Genesis(cfg, genesis, None);
    assert Tip(start.blocks) == 0;
    assert Below(start.blocks, 0) == start.blocks;
  }
}
