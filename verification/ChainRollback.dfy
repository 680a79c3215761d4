/**
 Which rollbacks succeed. Execution moves the burn address by the same flows whatever the other
 balances are, so a lead is never made up for: a rollback to a row succeeds exactly when the row
 was executed without lead.
 */
module ChainRollback {
  import opened Wrappers
  import opened Ledger
  import opened Chain
  import opened ChainRuns
  import opened ChainDrift
  import Slashing
  import Sums

  /** Nothing negative is moved to the burn address, neither as a value nor as a share of the fee. */
  ghost predicate SparesBurn(rates: Rates, core: TxCore, payee: string) {
    && (core.recipient == rates.burnAddress ==> core.value >= 0.0)
    && (payee == rates.burnAddress ==> Fee(rates, core) - Burn(rates, core) >= 0.0)
  }

  ghost predicate OrderlyBlock(rates: Rates, b: Block) {
    && b.miner != rates.burnAddress
    && forall i :: 0 <= i < |b.txs| ==> SparesBurn(rates, b.txs[i].core, Payee(rates, b.miner))
  }

  /** Nobody mines for the burn address and nothing negative is moved to it. */
  ghost predicate Orderly(cfg: Config, rows: Store) {
    && NonNegative(LiveAlloc(cfg))
    && forall k :: k in rows && k >= 1 ==> OrderlyBlock(cfg.rates, rows[k])
  }

  // ----- execution keeps the gap at the burn address -----

  ghost function Gap(rates: Rates, a: Accounts, b: Accounts): real {
    Balance(a, rates.burnAddress) - Balance(b, rates.burnAddress)
  }

  /** A transfer moves the burn address by its flow, whatever the other balances are. */
  lemma BurnFlow(rates: Rates, accounts: Accounts, core: TxCore, payee: string)
    requires NonNegative(accounts) && Balance(accounts, core.sender) >= core.value + Fee(rates, core)
    requires SparesBurn(rates, core, payee)
    ensures Balance(Transfer(rates, accounts, core, payee), rates.burnAddress)
            == Balance(accounts, rates.burnAddress) + Flow(rates, core, payee, rates.burnAddress)
    ensures NonNegative(Transfer(rates, accounts, core, payee))
  {
    hide Transfer, Flow, Total, Move, Fee, Burn;
    TransferFlows(rates, accounts, core, payee, rates.burnAddress);
    TransferChangesTotal(rates, accounts, core, payee);
    MoveIsNonNegative(accounts, core, Fee(rates, core));
  }

  lemma {:induction false} TxsKeepGap(rates: Rates, a: Accounts, b: Accounts, txs: seq<Tx>, height: int, proposer: string)
    requires NonNegative(a) && NonNegative(b)
    requires forall i :: 0 <= i < |txs| ==> SparesBurn(rates, txs[i].core, Payee(rates, proposer))
    requires ApplyTxs(rates, a, txs, height, proposer).Executed? && ApplyTxs(rates, b, txs, height, proposer).Executed?
    ensures var a', b' := ApplyTxs(rates, a, txs, height, proposer).accounts, ApplyTxs(rates, b, txs, height, proposer).accounts;
            NonNegative(a') && NonNegative(b') && Gap(rates, a', b') == Gap(rates, a, b)
  {
    hide Transfer, Fee, Stamp, Flow, Balance, NonNegative, SparesBurn;
    if txs != [] {
      var last := |txs| - 1;
      TxsKeepGap(rates, a, b, txs[..last], height, proposer);
      var a0 := ApplyTxs(rates, a, txs[..last], height, proposer).accounts;
      var b0 := ApplyTxs(rates, b, txs[..last], height, proposer).accounts;
      BurnFlow(rates, a0, txs[last].core, Payee(rates, proposer));
      BurnFlow(rates, b0, txs[last].core, Payee(rates, proposer));
    }
  }

  lemma RewardKeepsBurnBalance(rates: Rates, a: Accounts, miner: string)
    requires miner != rates.burnAddress && NonNegative(a)
    ensures Balance(ApplyReward(rates, a, miner), rates.burnAddress) == Balance(a, rates.burnAddress)
    ensures NonNegative(ApplyReward(rates, a, miner))
  {
    hide Total;
  }

  /** Two executions of one block end as far apart at the burn address as they began. */
  lemma ExecKeepsGap(rates: Rates, a: Accounts, b: Accounts, block: Block)
    requires NonNegative(a) && NonNegative(b) && OrderlyBlock(rates, block)
    requires ExecBlock(rates, a, block).Executed? && ExecBlock(rates, b, block).Executed?
    ensures var a', b' := ExecBlock(rates, a, block).accounts, ExecBlock(rates, b, block).accounts;
            NonNegative(a') && NonNegative(b') && Gap(rates, a', b') == Gap(rates, a, b)
  {
    hide ApplyTxs, ApplyReward, NonNegative, Balance, SparesBurn;
    TxsKeepGap(rates, a, b, block.txs, block.height, block.miner);
    RewardKeepsBurnBalance(rates, ApplyTxs(rates, a, block.txs, block.height, block.miner).accounts, block.miner);
    RewardKeepsBurnBalance(rates, ApplyTxs(rates, b, block.txs, block.height, block.miner).accounts, block.miner);
  }

  /**
   Why the burn address must not mine: just below the cap, a block it mines pays the replay the
   reward that it does not pay the live accounts, and a lead of d is made up for exactly.
   */
  lemma BurnMinerCatchesUp(rates: Rates, f: Accounts, b: Block, d: real)
    requires NonNegative(f) && b.txs == [] && b.miner == rates.burnAddress
    requires 0.0 < d <= rates.blockReward && Total(f) + d == rates.maxSupply
    ensures var live := ApplyDelta(f, rates.burnAddress, d);
            && Gap(rates, live, f) == d
            && ExecBlock(rates, f, b) == Executed(live, []) && ExecBlock(rates, live, b) == Executed(live, [])
  {
    hide Total;
    DeltaChangesTotal(f, rates.burnAddress, d);
    var live := ApplyDelta(f, rates.burnAddress, d);
    assert Reward(rates, f) == d && Reward(rates, live) == 0.0;
  }

  /**
   Why nothing negative may be moved to it: a value of -d sent to the burn address takes d from
   the live accounts, and nothing from a replay that has nothing there.
   */
  lemma NegativeValueSwallowsLead(rates: Rates, f: Accounts, tx: Tx, height: int, proposer: string, d: real)
    requires d > 0.0 && NonNegative(f) && Balance(f, rates.burnAddress) == 0.0 && Nonce(f, rates.burnAddress) == 0
    requires tx.core.recipient == rates.burnAddress != tx.core.sender && tx.core.value == -d && tx.core.gas == 0
    requires tx.core.nonce == Nonce(f, tx.core.sender) && rates.signatureOk(tx.core)
    ensures var live := ApplyDelta(f, rates.burnAddress, d);
            && Gap(rates, live, f) == d
            && ApplyTx(rates, f, tx, height, proposer).Applied?
            && ApplyTx(rates, live, tx, height, proposer) == ApplyTx(rates, f, tx, height, proposer)
  {
    hide Settle;
    var live := ApplyDelta(f, rates.burnAddress, d);
    assert Fee(rates, tx.core) == 0.0;
    hide Fee;
    assert Move(live, tx.core, 0.0) == Move(f, tx.core, 0.0);
  }

  lemma CreditMovesGap(rates: Rates, a: Accounts, b: Block)
    requires NonNegative(a)
    ensures NonNegative(Credited(rates, a, b))
    ensures Balance(Credited(rates, a, b), rates.burnAddress) == Balance(a, rates.burnAddress) + BurnCredit(rates, b)
  {
  }

  // ----- the lead is the gap between a row and the replay -----

  lemma {:induction false} FoldIsNonNegative(cfg: Config, rows: Store, h: int)
    requires Orderly(cfg, rows) && Fold(cfg, rows, h).Some?
    ensures NonNegative(Fold(cfg, rows, h).value)
    decreases if h <= 0 then 0 else h
  {
    hide ExecBlock, NonNegative, OrderlyBlock;
    if h > 0 {
      FoldIsNonNegative(cfg, rows, h - 1);
      var before := Fold(cfg, rows, h - 1).value;
      ExecKeepsGap(cfg.rates, before, before, rows[h]);
    }
  }

  lemma {:induction false} RowsAreNonNegative(cfg: Config, ch: ChainState, t: Track, i: int)
    requires Tracked(cfg, ch, t) && Orderly(cfg, t.rows) && 1 <= i <= Tip(ch.blocks)
    ensures NonNegative(t.base[i]) && NonNegative(t.exec[i])
    decreases i
  {
    hide ExecBlock, NonNegative, OrderlyBlock, Credited, Fold, Table, Tip, Covers;
    assert RowOk(cfg, t, i);
    if Fold(cfg, t.rows, i - 1) == Some(t.base[i]) {
      FoldIsNonNegative(cfg, t.rows, i - 1);
    } else {
      RowsAreNonNegative(cfg, ch, t, i - 1);
      CreditMovesGap(cfg.rates, t.exec[i - 1], t.rows[i - 1]);
    }
    ExecKeepsGap(cfg.rates, t.base[i], t.base[i], t.rows[i]);
  }

  /** Where the replay gets that far, the row's accounts are ahead of it by exactly the lead. */
  lemma {:induction false} LeadIsGap(cfg: Config, ch: ChainState, t: Track, i: int)
    requires Tracked(cfg, ch, t) && Orderly(cfg, t.rows) && 1 <= i <= Tip(ch.blocks) && Fold(cfg, t.rows, i).Some?
    ensures Fold(cfg, t.rows, i - 1).Some?
    ensures Gap(cfg.rates, t.base[i], Fold(cfg, t.rows, i - 1).value) == t.lead[i]
    ensures Gap(cfg.rates, t.exec[i], Fold(cfg, t.rows, i).value) == t.lead[i]
    decreases i
  {
    hide ExecBlock, NonNegative, OrderlyBlock, Credited, Balance, Table, Tip, BurnCredit, Covers;
    assert RowOk(cfg, t, i);
    if i > 1 {
      LeadIsGap(cfg, ch, t, i - 1);
      RowsAreNonNegative(cfg, ch, t, i - 1);
      CreditMovesGap(cfg.rates, t.exec[i - 1], t.rows[i - 1]);
    }
    GapOfRow(cfg, ch, t, i);
  }

  lemma GapOfRow(cfg: Config, ch: ChainState, t: Track, i: int)
    requires Tracked(cfg, ch, t) && Orderly(cfg, t.rows) && 1 <= i <= Tip(ch.blocks) && Fold(cfg, t.rows, i).Some?
    ensures Fold(cfg, t.rows, i - 1).Some?
    ensures Gap(cfg.rates, t.exec[i], Fold(cfg, t.rows, i).value) == Gap(cfg.rates, t.base[i], Fold(cfg, t.rows, i - 1).value)
  {
    hide ExecBlock, NonNegative, OrderlyBlock, Balance, Table, Tip, Follows, Covers;
    assert RowOk(cfg, t, i);
    RowsAreNonNegative(cfg, ch, t, i);
    FoldIsNonNegative(cfg, t.rows, i - 1);
    ExecKeepsGap(cfg.rates, t.base[i], Fold(cfg, t.rows, i - 1).value, t.rows[i]);
  }

  /** The live accounts are ahead of the replay by exactly the burned totals credited since the last replay. */
  lemma LiveLeadIsGap(cfg: Config, ch: ChainState, t: Track)
    requires Tracked(cfg, ch, t) && Orderly(cfg, t.rows) && Fold(cfg, t.rows, Tip(ch.blocks)).Some?
    ensures Gap(cfg.rates, ch.accounts, Fold(cfg, t.rows, Tip(ch.blocks)).value) == t.now
  {
    hide ExecBlock, NonNegative, Credited, Balance, Table, StateAt, BurnCredit, Covers;
    var n := Tip(ch.blocks);
    if n >= 1 {
      LeadIsGap(cfg, ch, t, n);
      RowsAreNonNegative(cfg, ch, t, n);
      CreditMovesGap(cfg.rates, t.exec[n], t.rows[n]);
    }
  }

  // ----- outcomes -----

  /** The rows 1..h are all in the table. */
  ghost predicate Stored(ch: ChainState, h: int) {
    forall k :: 1 <= k <= h ==> k in ch.blocks
  }

  /** The replay of the table is the replay of the chain as far as no row is missing. */
  lemma FoldOfTable(cfg: Config, ch: ChainState, t: Track, h: int)
    requires Tracked(cfg, ch, t)
    ensures Fold(cfg, ch.blocks, h) == if Stored(ch, h) then Fold(cfg, t.rows, h) else None
  {
    hide ExecBlock, RowOk, Follows, Keyed;
    if Stored(ch, h) {
      StateAtPrefix(cfg.rates, LiveAlloc(cfg), ch.blocks, t.rows, h);
    } else if Fold(cfg, ch.blocks, h).Some? {
      forall k | 1 <= k <= h ensures k in ch.blocks { FoldNeedsRows(cfg.rates, LiveAlloc(cfg), ch.blocks, h, k); }
    }
  }

  /** The root tells these two tables apart (the hash does not collide on them) and is not empty. */
  ghost predicate Separates(cfg: Config, a: Accounts, b: Accounts) {
    cfg.root(a) != "" && (cfg.root(a) == cfg.root(b) ==> a == b)
  }

  /** The root of row `h` separates its accounts from the replay. */
  ghost predicate RootTells(cfg: Config, t: Track, h: int) {
    h in t.exec && Fold(cfg, t.rows, h).Some? ==> Separates(cfg, t.exec[h], Fold(cfg, t.rows, h).value)
  }

  /** A row with a lead can be recognised: the chain is orderly and the root tells. */
  ghost predicate LeadShows(cfg: Config, t: Track, h: int) {
    Orderly(cfg, t.rows) && RootTells(cfg, t, h)
  }

  /** The replay of row `h` matches its root if it has no lead; a lead that shows does not match. */
  lemma ReplayMatches(cfg: Config, ch: ChainState, t: Track, h: int)
    requires Tracked(cfg, ch, t) && 1 <= h <= Tip(ch.blocks)
    ensures h in t.rows && h in t.lead && h in t.exec && t.rows[h].stateRoot == cfg.root(t.exec[h])
    ensures t.lead[h] == 0.0 ==> Fold(cfg, t.rows, h) == Some(t.exec[h])
    ensures t.lead[h] != 0.0 && LeadShows(cfg, t, h) && Fold(cfg, t.rows, h).Some? ==>
              t.rows[h].stateRoot != "" && t.rows[h].stateRoot != cfg.root(Fold(cfg, t.rows, h).value)
  {
    hide StateAt, Table, Tip, Covers, Orderly;
    assert RowOk(cfg, t, h);
    if t.lead[h] == 0.0 { NoLeadIsFold(cfg, ch, t, h); }
    if Orderly(cfg, t.rows) && Fold(cfg, t.rows, h).Some? { LeadIsGap(cfg, ch, t, h); }
  }

  predicate Allowed(h: int, floor: int) {
    floor <= 0 || h >= floor
  }

  /**
   A rollback to height 1 or more. It succeeds whenever it respects the finalized floor, no row up
   to that height was erased and no burning block below it was added since the last replay; blocks
   and accounts are then those of that height. It fails below the floor, across an erased row, and
   for a lead that shows. Whenever it fails nothing changes.
   */
  lemma ReorgOutcome(cfg: Config, ch: ChainState, t: Track, h: int, floor: int)
    requires Tracked(cfg, ch, t) && AllocsAgree(cfg) && 1 <= h <= Tip(ch.blocks)
    ensures h in t.lead && h in t.exec
    ensures Allowed(h, floor) && Stored(ch, h) && t.lead[h] == 0.0 ==>
              ReorgTo(cfg, ch, h, floor) == Response(ch.(accounts := t.exec[h], blocks := Below(ch.blocks, h)), true)
    ensures !Allowed(h, floor) || !Stored(ch, h) || (LeadShows(cfg, t, h) && t.lead[h] != 0.0) ==>
              !ReorgTo(cfg, ch, h, floor).ok
    ensures !ReorgTo(cfg, ch, h, floor).ok ==> ReorgTo(cfg, ch, h, floor).ch == ch
  {
    hide StateAt, LeadShows, RowOk, Follows, Keyed, Table;
    ReplayMatches(cfg, ch, t, h);
    FoldOfTable(cfg, ch, t, h);
  }

  /** In short, where a lead shows: success if and only if floor, rows and lead allow it. */
  lemma ReorgIff(cfg: Config, ch: ChainState, t: Track, h: int, floor: int)
    requires Tracked(cfg, ch, t) && AllocsAgree(cfg) && 1 <= h <= Tip(ch.blocks) && LeadShows(cfg, t, h)
    ensures h in t.lead
    ensures ReorgTo(cfg, ch, h, floor).ok <==> Allowed(h, floor) && Stored(ch, h) && t.lead[h] == 0.0
  {
    hide Tracked, LeadShows, ReorgTo, Stored, Allowed;
    ReorgOutcome(cfg, ch, t, h, floor);
  }

  /** A rollback to genesis replays nothing; it succeeds when the genesis block's own root allows it. */
  lemma ReorgToGenesis(cfg: Config, ch: ChainState, t: Track, floor: int)
    requires Tracked(cfg, ch, t)
    ensures var r := ReorgTo(cfg, ch, 0, floor);
            && (r.ok <==> floor <= 0 && (0 in ch.blocks ==>
                  ch.blocks[0].stateRoot == "" || ch.blocks[0].stateRoot == cfg.root(ReplayAlloc(cfg))))
            && r.ch == if r.ok then ch.(accounts := ReplayAlloc(cfg), blocks := Below(ch.blocks, 0)) else ch
  {
    hide Follows, RowOk;
  }

  /** Nothing to do: a rollback above the tip and a repair of a chain without blocks above genesis succeed as they are. */
  lemma NothingToRollBack(cfg: Config, ch: ChainState, h: int, floor: int)
    ensures h > Tip(ch.blocks) && Allowed(h, floor) ==> ReorgTo(cfg, ch, h, floor) == Response(ch, true)
    ensures Tip(ch.blocks) <= 0 ==> EnsureStateAtTip(cfg, ch, floor) == Response(ch, true)
  {
    hide StateAt;
  }

  /** The root stored at the tip is empty or that of the given accounts. */
  ghost predicate TipMatches(cfg: Config, ch: ChainState, live: Accounts)
    requires Tip(ch.blocks) in ch.blocks
  {
    ch.blocks[Tip(ch.blocks)].stateRoot == "" || ch.blocks[Tip(ch.blocks)].stateRoot == cfg.root(live)
  }

  /**
   `ensure_state_at_tip` on any account table: it is satisfied if the root matches, and otherwise
   repairs the table as a rollback to the tip would. The repair also takes back the second credit
   of a burning tip block.
   */
  lemma EnsureOutcome(cfg: Config, ch: ChainState, t: Track, live: Accounts, floor: int)
    requires Tracked(cfg, ch, t) && AllocsAgree(cfg) && Tip(ch.blocks) > 0
    ensures Tip(ch.blocks) in t.lead && Tip(ch.blocks) in t.exec
    ensures var tip := Tip(ch.blocks);
            var r := EnsureStateAtTip(cfg, ch.(accounts := live), floor);
            && r.ch.blocks == ch.blocks
            && (TipMatches(cfg, ch, live) ==> r == Response(ch.(accounts := live), true))
            && (!TipMatches(cfg, ch, live) && Allowed(tip, floor) && Stored(ch, tip) && t.lead[tip] == 0.0 ==>
                  r == Response(ch.(accounts := t.exec[tip]), true))
            && (!TipMatches(cfg, ch, live)
                && (!Allowed(tip, floor) || !Stored(ch, tip) || (LeadShows(cfg, t, tip) && t.lead[tip] != 0.0)) ==>
                  r == Response(ch.(accounts := live), false))
  {
    hide StateAt, LeadShows, RowOk, Follows, Keyed, Table;
    var tip := Tip(ch.blocks);
    ReplayMatches(cfg, ch, t, tip);
    FoldOfTable(cfg, ch, t, tip);
    assert Below(ch.blocks, tip) == ch.blocks;
  }

  ghost predicate NoLead(t: Track) {
    t.now == 0.0 && forall i :: i in t.lead ==> t.lead[i] == 0.0
  }

  /** Without a lead anywhere, a complete table is consistent: live accounts and roots are those of the replay. */
  lemma NoLeadIsConsistent(cfg: Config, ch: ChainState, t: Track)
    requires Tracked(cfg, ch, t) && Whole(ch, t) && NoLead(t)
    ensures Consistent(cfg, ch)
  {
    hide StateAt, Follows;
    NoLeadLiveIsFold(cfg, ch, t);
    forall i | 1 <= i <= Tip(ch.blocks) ensures Linked(cfg, LiveAlloc(cfg), ch.blocks, i) {
      assert RowOk(cfg, t, i);
      NoLeadIsFold(cfg, ch, t, i);
    }
  }

  /**
   The live accounts are the fold of the stored chain, roots included, for a complete table without
   lead; and only then, where a lead shows.
   */
  lemma ConsistentIff(cfg: Config, ch: ChainState, t: Track)
    requires Tracked(cfg, ch, t)
    ensures Whole(ch, t) && NoLead(t) ==> Consistent(cfg, ch)
    ensures Orderly(cfg, t.rows) && (forall i :: i in t.lead ==> RootTells(cfg, t, i)) && Consistent(cfg, ch) ==>
              Whole(ch, t) && NoLead(t)
  {
    hide StateAt, RootTells, Follows, Orderly, RowOk;
    if Whole(ch, t) && NoLead(t) { NoLeadIsConsistent(cfg, ch, t); }
    if Orderly(cfg, t.rows) && (forall i :: i in t.lead ==> RootTells(cfg, t, i)) && Consistent(cfg, ch) {
      SameRows(t, ch.blocks, Tip(ch.blocks));
      LiveLeadIsGap(cfg, ch, t);
      forall i | i in t.lead ensures t.lead[i] == 0.0 {
        assert Linked(cfg, LiveAlloc(cfg), ch.blocks, i);
        ReplayMatches(cfg, ch, t, i);
      }
    }
  }

  lemma SameRows(t: Track, blocks: Store, n: int)
    requires Keyed(t, n) && Covers(t, blocks, n) && Contiguous(blocks, n)
    ensures blocks == t.rows
  {
    forall k ensures k in blocks.Keys <==> k in t.rows.Keys {
      if k in t.rows { assert 0 <= k <= n; }
    }
    Sums.SameMembers(blocks.Keys, t.rows.Keys);
    assert Below(blocks, n) == blocks;
    assert Below(t.rows, n) == t.rows;
    assert Below(blocks, n) == Below(t.rows, n);
  }

  /** Without a burn address every quiet run from genesis keeps live accounts and roots at the replay. */
  lemma NoBurnAddressIsConsistent(cfg: Config, genesis: Block, slashing: Option<Slashing.State>, events: seq<Event>)
    requires AllocsAgree(cfg) && cfg.rates.burnAddress == "" && QuietRun(cfg, Genesis(cfg, genesis, slashing), events)
    requires RegularRun(events)
    ensures Consistent(cfg, Run(cfg, Genesis(cfg, genesis, slashing), events))
  {
    hide Run, TrackRun, QuietRun, RowOk, Follows, Consistent, Covers, Whole;
    var start := Genesis(cfg, genesis, slashing);
    var ch, t := Run(cfg, start, events), TrackRun(cfg, start, events);
    RunKeepsTracked(cfg, genesis, slashing, events);
    RunStaysWhole(cfg, genesis, slashing, events);
    NoBurnAddressNoLiveLead(cfg, ch, t);
    forall i | i in t.lead ensures t.lead[i] == 0.0 { NoBurnAddressNoLead(cfg, ch, t, i); }
    NoLeadIsConsistent(cfg, ch, t);
  }

  /** The rollback outcome for every state that a run from genesis reaches. */
  lemma ReorgOverRuns(cfg: Config, genesis: Block, slashing: Option<Slashing.State>, events: seq<Event>, h: int, floor: int)
    requires AllocsAgree(cfg) && RegularRun(events)
    requires 1 <= h <= Tip(Run(cfg, Genesis(cfg, genesis, slashing), events).blocks)
    ensures var start := Genesis(cfg, genesis, slashing);
            var ch, t := Run(cfg, start, events), TrackRun(cfg, start, events);
            && h in t.lead
            && (Allowed(h, floor) && Stored(ch, h) && t.lead[h] == 0.0 ==> ReorgTo(cfg, ch, h, floor).ok)
            && (LeadShows(cfg, t, h) ==>
                  (ReorgTo(cfg, ch, h, floor).ok <==> Allowed(h, floor) && Stored(ch, h) && t.lead[h] == 0.0))
  {
    hide Run, TrackRun, ReorgTo, Tracked, LeadShows, Stored, Allowed;
    var start := Genesis(cfg, genesis, slashing);
    RunKeepsTracked(cfg, genesis, slashing, events);
    ReorgOutcome(cfg, Run(cfg, start, events), TrackRun(cfg, start, events), h, floor);
  }

  // ----- a rollback that fails -----

  function SecondBlock(parent: string): Block {
    Block(2, parent, "m", [], 0, "", "", "", 0.0)
  }

  /**
   The input: one burning transfer, an empty block on top, and a root that notices a burn balance
   above 1. The chain cannot be rolled back to its own tip.
   */
  lemma BurningBlockBlocksReorg(cfg: Config, genesis: Block)
    requires FullSupply(cfg.rates, LiveAlloc(cfg)) && AllocsAgree(cfg)
    requires forall a: Accounts :: cfg.root(a) == if Balance(a, "burn") > 1.0 then "more" else "one"
    ensures var start := Genesis(cfg, genesis, None);
            var first := AddBlock(cfg, start, OneTransferBlock(genesis), false, true).ch;
            && 1 in first.blocks
            && var second := AddBlock(cfg, first, SecondBlock(first.blocks[1].hash), false, true);
               second.ok && Tip(second.ch.blocks) == 2 && !ReorgTo(cfg, second.ch, 2, 0).ok
  {
    hide ExecBlock, Total, StateAt, Consistent;
    var start := Genesis(cfg, genesis, None);
    var b1 := OneTransferBlock(genesis);
    var first := AddBlock(cfg, start, b1, false, true).ch;
    OneTransferDrifts(cfg, genesis);
    AddedIs(cfg, start, b1, false, true);
    var row1 := RowOf(cfg, start, b1, false);
    TipOfPut(start.blocks, row1);
    var b2 := SecondBlock(first.blocks[1].hash);
    EmptyBlockExecutes(cfg.rates, first.accounts, b2);
    assert Fits(first, b2);
    assert AddBlock(cfg, first, b2, false, true).ok;
    AddedIs(cfg, first, b2, false, true);
    var row2 := RowOf(cfg, first, b2, false);
    TipOfPut(first.blocks, row2);
    var second := AddBlock(cfg, first, b2, false, true).ch;
    OneTransferExecutes(cfg.rates, start.accounts, b1);
    ReplayOfTwo(cfg, second.blocks, row1, row2, start.accounts, ExecBlock(cfg.rates, start.accounts, b1).accounts);
  }

  lemma EmptyBlockExecutes(rates: Rates, accounts: Accounts, b: Block)
    requires b.txs == [] && rates.blockReward == 0.0
    ensures ExecBlock(rates, accounts, b) == Executed(accounts, [])
  {
    hide Total;
    assert ApplyTxs(rates, accounts, [], b.height, b.miner) == Executed(accounts, []);
  }

  /** Replaying the two rows ends where the first one ended, or fails because the second erased the first. */
  lemma ReplayOfTwo(cfg: Config, blocks: Store, row1: Block, row2: Block, start: Accounts, after: Accounts)
    requires start == LiveAlloc(cfg) && 2 in blocks && blocks[2] == row2 && (1 in blocks ==> blocks[1] == row1)
    requires Faithful(cfg, start, row1, after) && row2.txs == [] && cfg.rates.blockReward == 0.0
    ensures Fold(cfg, blocks, 2) == None || Fold(cfg, blocks, 2) == Some(after)
  {
    hide ExecBlock;
    assert StateAt(cfg.rates, LiveAlloc(cfg), blocks, 0) == Some(start);
    EmptyBlockExecutes(cfg.rates, after, row2);
  }
}
