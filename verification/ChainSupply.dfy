/**
 Supply along the chain: what blocks mint, what clamped transfers create, what persisting blocks
 credits a second time, and how far the cap can be passed. Nothing is assumed of the transactions.
 */
module ChainSupply {
  import opened Wrappers
  import opened Ledger
  import opened Chain
  import opened ChainRuns
  import opened ChainDrift
  import Slashing

  // ----- one block -----

  /** What the transactions add to the supply, one after the other. */
  function CreatedByTxs(rates: Rates, accounts: Accounts, txs: seq<Tx>, height: int, proposer: string): real {
    if txs == [] then 0.0
    else
      var last := |txs| - 1;
      var mid := ApplyTxs(rates, accounts, txs[..last], height, proposer);
      CreatedByTxs(rates, accounts, txs[..last], height, proposer)
      + (if mid.Executed? then Created(rates, mid.accounts, txs[last].core, Payee(rates, proposer)) else 0.0)
  }

  lemma {:induction false} TxsChangeTotal(rates: Rates, accounts: Accounts, txs: seq<Tx>, height: int, proposer: string)
    requires NonNegative(accounts) && ApplyTxs(rates, accounts, txs, height, proposer).Executed?
    ensures var after := ApplyTxs(rates, accounts, txs, height, proposer).accounts;
            NonNegative(after) && Total(after) == Total(accounts) + CreatedByTxs(rates, accounts, txs, height, proposer)
  {
    hide Transfer, Total, Fee, Stamp, Created, NonNegative, Balance, Nonce;
    if txs != [] {
      var last := |txs| - 1;
      TxsChangeTotal(rates, accounts, txs[..last], height, proposer);
      var mid := ApplyTxs(rates, accounts, txs[..last], height, proposer).accounts;
      TransferChangesTotal(rates, mid, txs[last].core, Payee(rates, proposer));
    }
  }

  /** Non-negative values and gas create nothing; without a burn address they lose what they burn. */
  lemma {:induction false} OrderlyTxsCreateNothing(
      rates: Rates, accounts: Accounts, txs: seq<Tx>, height: int, proposer: string)
    requires Sane(rates) && NonNegative(accounts) && NonNegativeTxs(txs)
    requires ApplyTxs(rates, accounts, txs, height, proposer).Executed?
    ensures CreatedByTxs(rates, accounts, txs, height, proposer)
            == if rates.burnAddress == "" then -BurnOf(rates, txs) else 0.0
    ensures BurnOf(rates, txs) >= 0.0
  {
    hide Transfer, Total, Fee, Burn, Stamp, Created, NonNegative, Balance, Nonce;
    if txs != [] {
      var last := |txs| - 1;
      OrderlyTxsCreateNothing(rates, accounts, txs[..last], height, proposer);
      TxsChangeTotal(rates, accounts, txs[..last], height, proposer);
      var mid := ApplyTxs(rates, accounts, txs[..last], height, proposer).accounts;
      OrderlyCreatesNothing(rates, mid, txs[last].core, Payee(rates, proposer));
    }
  }

  ghost function CreatedBy(rates: Rates, accounts: Accounts, b: Block): real {
    CreatedByTxs(rates, accounts, b.txs, b.height, b.miner)
  }

  /** What block `b` mints when executed on `accounts`: the capped reward on the supply after its transactions. */
  ghost function Minted(rates: Rates, accounts: Accounts, b: Block): (r: real) {
    var r := ApplyTxs(rates, accounts, b.txs, b.height, b.miner);
    if r.Executed? then Clamp(Reward(rates, r.accounts)) else 0.0
  }

  /**
   Executing a block changes the supply by what its transactions create and by its reward, keeps
   balances non-negative, and mints nothing that would pass the cap.
   */
  lemma BlockMintsReward(rates: Rates, accounts: Accounts, b: Block)
    requires NonNegative(accounts) && ExecBlock(rates, accounts, b).Executed?
    ensures var after := ExecBlock(rates, accounts, b).accounts;
            var minted, created := Minted(rates, accounts, b), CreatedBy(rates, accounts, b);
            && NonNegative(after)
            && Total(after) == Total(accounts) + created + minted
            && 0.0 <= minted <= Clamp(rates.blockReward)
            && (minted == 0.0 || Total(after) <= rates.maxSupply)
  {
    hide Total, ApplyReward, NonNegative, CreatedByTxs;
    TxsChangeTotal(rates, accounts, b.txs, b.height, b.miner);
    RewardIsCapped(rates, ApplyTxs(rates, accounts, b.txs, b.height, b.miner).accounts, b.miner);
  }

  // ----- replayed states -----

  /** The three ways in which supply came into being: rewards, clamps (signed), clamps (only the gains). */
  datatype Supply = Supply(minted: real, created: real, gained: real)

  const NOTHING: Supply := Supply(0.0, 0.0, 0.0)

  ghost function AddTo(rates: Rates, s: Supply, accounts: Accounts, b: Block): Supply {
    Supply(s.minted + Minted(rates, accounts, b), s.created + CreatedBy(rates, accounts, b),
           s.gained + Clamp(CreatedBy(rates, accounts, b)))
  }

  /** The supply of the replay of the rows 1..h. */
  ghost function SupplyUpTo(cfg: Config, blocks: Store, h: int): Supply
    decreases if h <= 0 then 0 else h
  {
    if h <= 0 then NOTHING
    else
      var before := Fold(cfg, blocks, h - 1);
      if before.Some? && h in blocks then AddTo(cfg.rates, SupplyUpTo(cfg, blocks, h - 1), before.value, blocks[h])
      else SupplyUpTo(cfg, blocks, h - 1)
  }

  /** The account table holds the genesis allocation, `s` and the credits, and passes the cap by at most gains and credits. */
  ghost predicate Holds(cfg: Config, accounts: Accounts, s: Supply, credited: real) {
    && NonNegative(accounts) && credited >= 0.0 && s.gained >= 0.0
    && Total(accounts) == Total(LiveAlloc(cfg)) + s.minted + s.created + credited
    && Total(accounts) <= cfg.rates.maxSupply + s.gained + credited
  }

  ghost predicate SoundGenesis(cfg: Config) {
    NonNegative(LiveAlloc(cfg)) && Total(LiveAlloc(cfg)) <= cfg.rates.maxSupply
  }

  lemma ExecutionHolds(cfg: Config, accounts: Accounts, s: Supply, credited: real, b: Block)
    requires Holds(cfg, accounts, s, credited) && ExecBlock(cfg.rates, accounts, b).Executed?
    ensures Holds(cfg, ExecBlock(cfg.rates, accounts, b).accounts, AddTo(cfg.rates, s, accounts, b), credited)
  {
    hide Total, NonNegative, ExecBlock, Minted, CreatedBy;
    BlockMintsReward(cfg.rates, accounts, b);
  }

  lemma {:induction false} SupplyOfReplay(cfg: Config, blocks: Store, h: int)
    requires SoundGenesis(cfg) && Fold(cfg, blocks, h).Some?
    ensures Holds(cfg, Fold(cfg, blocks, h).value, SupplyUpTo(cfg, blocks, h), 0.0)
    decreases if h <= 0 then 0 else h
  {
    hide Total, NonNegative, ExecBlock, AddTo;
    if h > 0 {
      SupplyOfReplay(cfg, blocks, h - 1);
      ExecutionHolds(cfg, Fold(cfg, blocks, h - 1).value, SupplyUpTo(cfg, blocks, h - 1), 0.0, blocks[h]);
    }
  }

  // ----- one block, as add_block leaves it -----

  lemma CreditRaisesTotal(rates: Rates, accounts: Accounts, b: Block)
    requires NonNegative(accounts)
    ensures NonNegative(Credited(rates, accounts, b))
    ensures Total(Credited(rates, accounts, b)) == Total(accounts) + BurnCredit(rates, b)
  {
    hide Total;
    if BurnCredit(rates, b) > 0.0 { DeltaChangesTotal(accounts, rates.burnAddress, b.totalBurned); }
  }

  /**
   A stored block changes the live supply by what its transactions create, its reward and the
   burned total credited again, and leaves it within the cap if and only if all that still fits.
   */
  lemma AddRaisesSupply(cfg: Config, ch: ChainState, b: Block, preserve: bool, authorized: bool)
    requires NonNegative(ch.accounts) && AddBlock(cfg, ch, b, preserve, authorized).ok
    ensures ExecBlock(cfg.rates, ch.accounts, b).Executed?
    ensures var after := AddBlock(cfg, ch, b, preserve, authorized).ch.accounts;
            var credit := if cfg.rates.burnAddress == "" then 0.0 else Clamp(BurnOf(cfg.rates, b.txs));
            var added := CreatedBy(cfg.rates, ch.accounts, b) + Minted(cfg.rates, ch.accounts, b) + credit;
            && credit == BurnCredit(cfg.rates, RowOf(cfg, ch, b, preserve))
            && NonNegative(after)
            && Total(after) == Total(ch.accounts) + added
            && (Total(after) <= cfg.rates.maxSupply <==> added <= cfg.rates.maxSupply - Total(ch.accounts))
  {
    hide Total, NonNegative, ExecBlock, Minted, CreatedBy, AddBlock, Credited, RowOf, Faithful, Fits;
    AddedIs(cfg, ch, b, preserve, authorized);
    BlockMintsReward(cfg.rates, ch.accounts, b);
    CreditRaisesTotal(cfg.rates, ExecBlock(cfg.rates, ch.accounts, b).accounts, RowOf(cfg, ch, b, preserve));
  }

  lemma AddHolds(cfg: Config, ch: ChainState, s: Supply, credited: real, b: Block, preserve: bool, authorized: bool)
    requires Holds(cfg, ch.accounts, s, credited) && AddBlock(cfg, ch, b, preserve, authorized).ok
    ensures ExecBlock(cfg.rates, ch.accounts, b).Executed?
    ensures Holds(cfg, AddBlock(cfg, ch, b, preserve, authorized).ch.accounts, AddTo(cfg.rates, s, ch.accounts, b),
                  credited + BurnCredit(cfg.rates, RowOf(cfg, ch, b, preserve)))
  {
    hide Total, NonNegative, ExecBlock, AddTo, AddBlock, Credited, RowOf, Faithful, Fits, BurnCredit;
    AddedIs(cfg, ch, b, preserve, authorized);
    ExecutionHolds(cfg, ch.accounts, s, credited, b);
    CreditRaisesTotal(cfg.rates, ExecBlock(cfg.rates, ch.accounts, b).accounts, RowOf(cfg, ch, b, preserve));
  }

  // ----- whole runs -----

  /** A replay starts the account anew; a stored block adds to it. */
  ghost function SupplyStep(cfg: Config, ch: ChainState, s: Supply, e: Event): Supply {
    if e.Add? && AddBlock(cfg, ch, e.b, e.preserve, e.authorized).ok then AddTo(cfg.rates, s, ch.accounts, e.b)
    else if ReplaysTo(cfg, ch, e).Some? then SupplyUpTo(cfg, ch.blocks, ReplaysTo(cfg, ch, e).value)
    else s
  }

  ghost function SupplyRun(cfg: Config, ch: ChainState, events: seq<Event>): Supply {
    if events == [] then NOTHING
    else
      var last := |events| - 1;
      SupplyStep(cfg, Run(cfg, ch, events[..last]), SupplyRun(cfg, ch, events[..last]), events[last])
  }

  lemma StepHolds(cfg: Config, ch: ChainState, t: Track, s: Supply, e: Event)
    requires SoundGenesis(cfg) && AllocsAgree(cfg) && Holds(cfg, ch.accounts, s, t.now)
    ensures Holds(cfg, Apply(cfg, ch, e).ch.accounts, SupplyStep(cfg, ch, s, e), TrackStep(cfg, ch, t, e).now)
  {
    hide Holds, ExecBlock, AddTo, AddBlock, ReorgTo, RowOf, SupplyUpTo, Fold;
    if e.Add? {
      if AddBlock(cfg, ch, e.b, e.preserve, e.authorized).ok {
        AddHolds(cfg, ch, s, t.now, e.b, e.preserve, e.authorized);
      } else {
        RefusedAddChangesNoTable(cfg, ch, e.b, e.preserve, e.authorized);
      }
    } else if ReplaysTo(cfg, ch, e).Some? {
      var h := ReplaysTo(cfg, ch, e).value;
      ReorgIsReplay(cfg, ch, h, e.floor);
      SupplyOfReplay(cfg, ch.blocks, h);
    } else if e.Reorg? {
      NoReplay(cfg, ch, e.h, e.floor);
    } else if e.EnsureTip? && Tip(ch.blocks) > 0 && ch.blocks[Tip(ch.blocks)].stateRoot != ""
              && ch.blocks[Tip(ch.blocks)].stateRoot != cfg.root(ch.accounts) {
      NoReplay(cfg, ch, Tip(ch.blocks), e.floor);
    }
  }

  /**
   Supply over runs, exactly, whatever blocks are offered, rolled back and replayed from genesis:
   no balance is negative, and the live supply is the genesis allocation plus the rewards, plus
   what clamps created, plus the burned totals credited since the last replay. It passes
   `max_supply` by at most what clamps and credits gained.
   */
  lemma {:induction false} SupplyOverRuns(cfg: Config, genesis: Block, slashing: Option<Slashing.State>, events: seq<Event>)
    requires SoundGenesis(cfg) && AllocsAgree(cfg)
    ensures var start := Genesis(cfg, genesis, slashing);
            Holds(cfg, Run(cfg, start, events).accounts, SupplyRun(cfg, start, events), TrackRun(cfg, start, events).now)
  {
    hide Apply, SupplyStep, TrackStep, Total, NonNegative;
    if events != [] {
      var start, last := Genesis(cfg, genesis, slashing), |events| - 1;
      SupplyOverRuns(cfg, genesis, slashing, events[..last]);
      StepHolds(cfg, Run(cfg, start, events[..last]), TrackRun(cfg, start, events[..last]),
                SupplyRun(cfg, start, events[..last]), events[last]);
    }
  }

  // ----- runs without negative values or gas -----

  ghost predicate StoredNonNegative(blocks: Store) {
    forall k :: k in blocks && k >= 1 ==> NonNegativeTxs(blocks[k].txs)
  }

  ghost predicate OffersNonNegative(events: seq<Event>) {
    forall i :: 0 <= i < |events| && events[i].Add? ==> NonNegativeTxs(events[i].b.txs)
  }

  /** Nothing was created by clamps, and nothing lost unless fees burn without a burn address. */
  ghost predicate NothingCreated(rates: Rates, s: Supply) {
    s.gained == 0.0 && s.created <= 0.0 && (rates.burnAddress != "" ==> s.created == 0.0)
  }

  lemma OrderlyAddTo(rates: Rates, s: Supply, accounts: Accounts, b: Block)
    requires Sane(rates) && NonNegative(accounts) && NonNegativeTxs(b.txs) && NothingCreated(rates, s)
    requires ExecBlock(rates, accounts, b).Executed?
    ensures NothingCreated(rates, AddTo(rates, s, accounts, b))
  {
    hide ApplyTxs, CreatedByTxs, Minted, BurnOf;
    OrderlyTxsCreateNothing(rates, accounts, b.txs, b.height, b.miner);
  }

  lemma {:induction false} OrderlyReplay(cfg: Config, blocks: Store, h: int)
    requires Sane(cfg.rates) && SoundGenesis(cfg) && StoredNonNegative(blocks) && Fold(cfg, blocks, h).Some?
    ensures NothingCreated(cfg.rates, SupplyUpTo(cfg, blocks, h))
    decreases if h <= 0 then 0 else h
  {
    hide Total, NonNegative, ExecBlock, AddTo, NonNegativeTxs;
    if h > 0 {
      OrderlyReplay(cfg, blocks, h - 1);
      SupplyOfReplay(cfg, blocks, h - 1);
      OrderlyAddTo(cfg.rates, SupplyUpTo(cfg, blocks, h - 1), Fold(cfg, blocks, h - 1).value, blocks[h]);
    }
  }

  lemma ExecutionKeepsNonNegative(rates: Rates, accounts: Accounts, b: Block)
    requires ExecBlock(rates, accounts, b).Executed? && NonNegativeTxs(b.txs)
    ensures NonNegativeTxs(ExecBlock(rates, accounts, b).txs)
  {
    hide ApplyTxs, ApplyReward;
    RestampChangesNothing(rates, accounts, b.txs, b.height, b.miner);
  }

  lemma PutKeepsNonNegative(blocks: Store, row: Block)
    requires StoredNonNegative(blocks) && NonNegativeTxs(row.txs)
    ensures StoredNonNegative(Put(blocks, row))
  {
  }

  lemma OrderlyStep(cfg: Config, ch: ChainState, s: Supply, e: Event)
    requires Sane(cfg.rates) && SoundGenesis(cfg) && AllocsAgree(cfg) && NonNegative(ch.accounts)
    requires StoredNonNegative(ch.blocks) && NothingCreated(cfg.rates, s) && (e.Add? ==> NonNegativeTxs(e.b.txs))
    ensures StoredNonNegative(Apply(cfg, ch, e).ch.blocks) && NothingCreated(cfg.rates, SupplyStep(cfg, ch, s, e))
  {
    hide ExecBlock, AddTo, AddBlock, ReorgTo, SupplyUpTo, Fold, NonNegativeTxs, Put, Faithful, Credited, Fits, NothingCreated;
    if e.Add? {
      if AddBlock(cfg, ch, e.b, e.preserve, e.authorized).ok {
        AddedIs(cfg, ch, e.b, e.preserve, e.authorized);
        ExecutionKeepsNonNegative(cfg.rates, ch.accounts, e.b);
        PutKeepsNonNegative(ch.blocks, RowOf(cfg, ch, e.b, e.preserve));
        OrderlyAddTo(cfg.rates, s, ch.accounts, e.b);
      } else {
        RefusedAddChangesNoTable(cfg, ch, e.b, e.preserve, e.authorized);
      }
    } else if ReplaysTo(cfg, ch, e).Some? {
      var h := ReplaysTo(cfg, ch, e).value;
      ReorgIsReplay(cfg, ch, h, e.floor);
      OrderlyReplay(cfg, ch.blocks, h);
    } else if e.Reorg? {
      NoReplay(cfg, ch, e.h, e.floor);
    } else if e.EnsureTip? && Tip(ch.blocks) > 0 && ch.blocks[Tip(ch.blocks)].stateRoot != ""
              && ch.blocks[Tip(ch.blocks)].stateRoot != cfg.root(ch.accounts) {
      NoReplay(cfg, ch, Tip(ch.blocks), e.floor);
    }
  }

  /**
   If only non-negative values and gas are offered, clamps create nothing: the live supply passes
   `max_supply` by at most the burned totals credited since the last replay, and never without a
   burn address.
   */
  lemma {:induction false} OrderlyRunsCreateNothing(
      cfg: Config, genesis: Block, slashing: Option<Slashing.State>, events: seq<Event>)
    requires Sane(cfg.rates) && SoundGenesis(cfg) && AllocsAgree(cfg) && OffersNonNegative(events)
    ensures var start := Genesis(cfg, genesis, slashing);
            && StoredNonNegative(Run(cfg, start, events).blocks)
            && NothingCreated(cfg.rates, SupplyRun(cfg, start, events))
  {
    hide Apply, SupplyStep, Total, NonNegativeTxs, SoundGenesis;
    if events != [] {
      var start, last := Genesis(cfg, genesis, slashing), |events| - 1;
      OrderlyRunsCreateNothing(cfg, genesis, slashing, events[..last]);
      SupplyOverRuns(cfg, genesis, slashing, events[..last]);
      OrderlyStep(cfg, Run(cfg, start, events[..last]), SupplyRun(cfg, start, events[..last]), events[last]);
    }
  }
}
