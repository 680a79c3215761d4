/**
 Blocks, replay and reorganisation of core/blockchain.py as functions of a chain state:
 the account table, the stored blocks (block i has height i) and, when a slashing engine
 is attached, its state. A database transaction either commits or leaves both tables alone.
 */
module Chain {
  import opened Wrappers
  import opened Ledger
  import Slashing
  import Sums

  datatype Block = Block(
    height: int, parentHash: string, miner: string, txs: seq<Tx>, timestamp: int, extra: string,
    stateRoot: string, hash: string, totalBurned: real)

  /**
   Configuration. `alloc` is the genesis allocation for a founder address, `root` and
   `blockHash` the state root and the block hash: arbitrary functions unless stated.
   */
  datatype Config = Config(
    rates: Rates,
    founderAddress: string,
    alloc: string -> Accounts,
    root: Accounts -> string,
    blockHash: Block -> string,
    verifyPeerRoot: bool,
    strictPeerRoot: bool)

  /** The blocks table: one row per height. */
  type Store = map<int, Block>

  datatype ChainState = ChainState(
    accounts: Accounts,
    blocks: Store,
    baseline: int,
    slashing: Option<Slashing.State>)

  // ----- the blocks table -----

  ghost function MaxKey(keys: set<int>): (m: int)
    requires keys != {}
    ensures m in keys && forall k :: k in keys ==> k <= m
    decreases |keys|
  {
    Sums.SomeKey(keys);
    var k :| k in keys;
    var rest := keys - {k};
    assert keys == rest + {k};
    if rest == {} then k
    else
      var m := MaxKey(rest);
      if k > m then k else m
  }

  /** The highest stored height; 0 for an empty table. */
  ghost function Tip(blocks: Store): (t: int)
    ensures forall k :: k in blocks ==> k <= t
    ensures if blocks == map[] then t == 0 else t in blocks
  {
    if blocks == map[] then 0 else MaxKey(blocks.Keys)
  }

  /**
   INSERT OR REPLACE into a table whose hashes are unique: the row is written, and a stored
   row with the same hash is deleted, at whatever height it is.
   */
  function Put(blocks: Store, b: Block): (r: Store) {
    (map k | k in blocks && blocks[k].hash != b.hash :: blocks[k])[b.height := b]
  }

  predicate HashStored(blocks: Store, hash: string) {
    exists k :: k in blocks && blocks[k].hash == hash
  }

  /** The rows that a rollback to height `h` keeps. */
  function Below(blocks: Store, h: int): (r: Store) {
    map k | k in blocks && k <= h :: blocks[k]
  }

  /** What the table itself guarantees: rows sit at their own height and hashes are unique. */
  ghost predicate Table(blocks: Store) {
    && (forall k :: k in blocks ==> blocks[k].height == k && k >= 0)
    && (forall j, k :: j in blocks && k in blocks && blocks[j].hash == blocks[k].hash ==> j == k)
  }

  /** Rows at the heights 0..n and at no other. */
  ghost predicate Contiguous(blocks: Store, n: int) {
    n >= 0 && forall k :: k in blocks <==> 0 <= k <= n
  }

  // ----- executing one block -----

  datatype BlockResult = Executed(accounts: Accounts, txs: seq<Tx>) | Failed(error: TxError)

  function ApplyTxs(rates: Rates, accounts: Accounts, txs: seq<Tx>, height: int, proposer: string): (r: BlockResult) {
    if txs == [] then Executed(accounts, [])
    else
      var last := |txs| - 1;
      match ApplyTxs(rates, accounts, txs[..last], height, proposer)
      case Failed(e) => Failed(e)
      case Executed(mid, done) =>
        match ApplyTx(rates, mid, txs[last], height, proposer)
        case Refused(e) => Failed(e)
        case Applied(after, tx) => Executed(after, done + [tx])
  }

  /** All transactions in order, then the reward to the miner. */
  ghost function ExecBlock(rates: Rates, accounts: Accounts, b: Block): (r: BlockResult) {
    match ApplyTxs(rates, accounts, b.txs, b.height, b.miner)
    case Failed(e) => Failed(e)
    case Executed(after, txs) => Executed(ApplyReward(rates, after, b.miner), txs)
  }

  function TotalBurned(txs: seq<Tx>): real {
    if txs == [] then 0.0 else TotalBurned(txs[..|txs| - 1]) + txs[|txs| - 1].burned
  }

  /** What the transactions of a block burn, read from their gas. */
  function BurnOf(rates: Rates, txs: seq<Tx>): real {
    if txs == [] then 0.0 else BurnOf(rates, txs[..|txs| - 1]) + Burn(rates, txs[|txs| - 1].core)
  }

  lemma {:induction false} BurnedIsBurnOf(rates: Rates, accounts: Accounts, txs: seq<Tx>, height: int, proposer: string)
    requires ApplyTxs(rates, accounts, txs, height, proposer).Executed?
    ensures TotalBurned(ApplyTxs(rates, accounts, txs, height, proposer).txs) == BurnOf(rates, txs)
  {
    hide Transfer, Fee, Burn, Balance, Nonce;
    if txs != [] {
      var last := |txs| - 1;
      BurnedIsBurnOf(rates, accounts, txs[..last], height, proposer);
      var r, r0 := ApplyTxs(rates, accounts, txs, height, proposer), ApplyTxs(rates, accounts, txs[..last], height, proposer);
      assert r.txs[..|r.txs| - 1] == r0.txs;
    }
  }

  /** The block as it is stored: executed transactions, computed root, peer's or computed hash. */
  ghost function Sealed(cfg: Config, b: Block, accounts: Accounts, txs: seq<Tx>, preserve: bool): Block {
    var rooted := b.(txs := txs, totalBurned := TotalBurned(txs), stateRoot := cfg.root(accounts));
    rooted.(hash := if preserve && b.hash != "" then b.hash else cfg.blockHash(rooted.(hash := "")))
  }

  /** Values and gas that no transfer of this block turns around; block execution does not check them. */
  ghost predicate NonNegativeTxs(txs: seq<Tx>) {
    forall i :: 0 <= i < |txs| ==> txs[i].core.value >= 0.0 && txs[i].core.gas >= 0
  }

  // ----- add_block -----

  predicate NamedMiner(b: Block) {
    b.miner != "" && b.miner != "genesis"
  }

  /** The height is free and the block extends the last one; an empty table takes height 0 or 1. */
  ghost predicate Fits(ch: ChainState, b: Block) {
    && b.height !in ch.blocks
    && if ch.blocks == map[] then b.height == 0 || b.height == 1
       else
         var last := ch.blocks[Tip(ch.blocks)];
         b.height == last.height + 1 && b.parentHash == last.hash
  }

  predicate ProposerOk(ch: ChainState, b: Block, authorized: bool) {
    NamedMiner(b) ==> (ch.slashing.Some? ==> b.miner !in ch.slashing.value.slashed) && authorized
  }

  predicate AllSigned(rates: Rates, txs: seq<Tx>) {
    forall i :: 0 <= i < |txs| ==> rates.signatureOk(txs[i].core)
  }

  /** `_state_root_check_mode` says "strict" for a non-empty peer root. */
  predicate StrictRoot(cfg: Config, ch: ChainState, b: Block) {
    cfg.verifyPeerRoot && |b.stateRoot| >= 64 && cfg.strictPeerRoot && b.height > ch.baseline
  }

  predicate RootRejected(cfg: Config, ch: ChainState, b: Block, preserve: bool, computed: string) {
    preserve && b.stateRoot != "" && StrictRoot(cfg, ch, b) && b.stateRoot != computed
  }

  /** What persisting the block adds to the burn address, on top of what the transactions paid it. */
  function BurnCredit(rates: Rates, b: Block): (r: real)
    ensures r >= 0.0
  {
    if b.totalBurned > 0.0 && rates.burnAddress != "" then b.totalBurned else 0.0
  }

  function Credited(rates: Rates, accounts: Accounts, b: Block): Accounts {
    if BurnCredit(rates, b) > 0.0 then ApplyDelta(accounts, rates.burnAddress, b.totalBurned) else accounts
  }

  datatype Response = Response(ch: ChainState, ok: bool)

  /** The root is computed after execution; the burned total is then credited once more. */
  ghost function AddBlock(cfg: Config, ch: ChainState, b: Block, preserve: bool, authorized: bool): (r: Response) {
    if !Fits(ch, b) || !ProposerOk(ch, b, authorized) || !AllSigned(cfg.rates, b.txs) then Response(ch, false)
    else
      match ExecBlock(cfg.rates, ch.accounts, b)
      case Failed(_) => Response(ch, false)
      case Executed(after, txs) =>
        if RootRejected(cfg, ch, b, preserve, cfg.root(after)) then Response(ch, false)
        else
          var row := Sealed(cfg, b, after, txs, preserve);
          var stored := ch.(accounts := Credited(cfg.rates, after, row), blocks := Put(ch.blocks, row));
          if ch.slashing.Some? && NamedMiner(b) then
            var reply := Slashing.RecordProposal(ch.slashing.value, b.miner, b.height);
            if reply.ok then Response(stored.(slashing := Some(reply.s)), true)
            else Response(ch.(slashing := Some(reply.s)), false)  // the database rolls back, the engine does not
          else Response(stored, true)
  }

  // ----- genesis -----

  /** At start-up the allocation falls back to the miner's address ... */
  function LiveAlloc(cfg: Config): Accounts {
    cfg.alloc(if cfg.founderAddress != "" then cfg.founderAddress else cfg.rates.minerAddress)
  }

  /** ... during replay it does not. */
  function ReplayAlloc(cfg: Config): Accounts {
    cfg.alloc(cfg.founderAddress)
  }

  function Genesis(cfg: Config, genesis: Block, slashing: Option<Slashing.State>): ChainState {
    ChainState(LiveAlloc(cfg), map[0 := genesis.(height := 0)], 0, slashing)
  }

  // ----- replay -----

  /** The accounts after executing the rows 1..h over the allocation `start`; a missing row fails. */
  ghost function StateAt(rates: Rates, start: Accounts, blocks: Store, h: int): (r: Option<Accounts>)
    decreases if h <= 0 then 0 else h
  {
    if h <= 0 then Some(start)
    else
      match StateAt(rates, start, blocks, h - 1)
      case None => None
      case Some(before) =>
        if h !in blocks then None
        else
          match ExecBlock(rates, before, blocks[h])
          case Failed(_) => None
          case Executed(after, _) => Some(after)
  }

  lemma {:induction false} StateAtPrefix(rates: Rates, start: Accounts, a: Store, b: Store, h: int)
    requires forall k :: 1 <= k <= h ==> (k in a <==> k in b) && (k in a ==> a[k] == b[k])
    ensures StateAt(rates, start, a, h) == StateAt(rates, start, b, h)
    decreases if h <= 0 then 0 else h
  {
    hide ExecBlock;
    if h > 0 { StateAtPrefix(rates, start, a, b, h - 1); }
  }

  ghost function ReorgTo(cfg: Config, ch: ChainState, h: int, floor: int): (r: Response) {
    if floor > 0 && h < floor then Response(ch, false)
    else if h > Tip(ch.blocks) then Response(ch, true)
    else
      match StateAt(cfg.rates, ReplayAlloc(cfg), ch.blocks, h)
      case None => Response(ch, false)
      case Some(replayed) =>
        if h in ch.blocks && ch.blocks[h].stateRoot != "" && ch.blocks[h].stateRoot != cfg.root(replayed)
        then Response(ch, false)
        else Response(ch.(accounts := replayed, blocks := Below(ch.blocks, h)), true)
  }

  ghost function EnsureStateAtTip(cfg: Config, ch: ChainState, floor: int): (r: Response) {
    var tip := Tip(ch.blocks);
    if tip <= 0 || ch.blocks == map[] then Response(ch, true)
    else
      var expected := ch.blocks[tip].stateRoot;
      if expected == "" || expected == cfg.root(ch.accounts) then Response(ch, true)
      else ReorgTo(cfg, ch, tip, floor)
  }

  // ----- the replay invariant -----

  /** Block `b` was stored after executing on `before` with result `after`. */
  ghost predicate Faithful(cfg: Config, before: Accounts, b: Block, after: Accounts) {
    && ExecBlock(cfg.rates, before, b) == Executed(after, b.txs)
    && b.stateRoot == cfg.root(after)
    && b.totalBurned == TotalBurned(b.txs)
    && AllSigned(cfg.rates, b.txs)
    && (b.hash == "" ==> cfg.blockHash(b.(hash := "")) == "")
  }

  ghost predicate Linked(cfg: Config, start: Accounts, blocks: Store, i: int) {
    && i in blocks && i - 1 in blocks
    && blocks[i].parentHash == blocks[i - 1].hash
    && StateAt(cfg.rates, start, blocks, i - 1).Some?
    && StateAt(cfg.rates, start, blocks, i).Some?
    && Faithful(cfg, StateAt(cfg.rates, start, blocks, i - 1).value, blocks[i],
                StateAt(cfg.rates, start, blocks, i).value)
  }

  /** The live accounts are the fold of a complete stored chain over the genesis allocation. */
  ghost predicate Consistent(cfg: Config, ch: ChainState) {
    && Table(ch.blocks)
    && Contiguous(ch.blocks, Tip(ch.blocks))
    && (forall i :: 1 <= i <= Tip(ch.blocks) ==> Linked(cfg, LiveAlloc(cfg), ch.blocks, i))
    && StateAt(cfg.rates, LiveAlloc(cfg), ch.blocks, Tip(ch.blocks)) == Some(ch.accounts)
  }

  lemma {:induction false} RestampChangesNothing(rates: Rates, accounts: Accounts, txs: seq<Tx>, height: int, proposer: string)
    requires ApplyTxs(rates, accounts, txs, height, proposer).Executed?
    ensures var r := ApplyTxs(rates, accounts, txs, height, proposer);
            && |r.txs| == |txs|
            && (forall i :: 0 <= i < |txs| ==> r.txs[i].core == txs[i].core)
            && ApplyTxs(rates, accounts, r.txs, height, proposer) == r
  {
    hide Transfer, Fee, Burn, Balance, Nonce;
    if txs != [] {
      var last := |txs| - 1;
      RestampChangesNothing(rates, accounts, txs[..last], height, proposer);
      var r := ApplyTxs(rates, accounts, txs, height, proposer);
      var r0 := ApplyTxs(rates, accounts, txs[..last], height, proposer);
      assert r.txs[..last] == r0.txs;
      assert r.txs[last] == Stamp(rates, txs[last], height);
    }
  }

  /** The stored row replays from the state before it to the state whose root it carries. */
  lemma SealedIsFaithful(cfg: Config, before: Accounts, b: Block, after: Accounts, txs: seq<Tx>, preserve: bool)
    requires ExecBlock(cfg.rates, before, b) == Executed(after, txs) && AllSigned(cfg.rates, b.txs)
    ensures Faithful(cfg, before, Sealed(cfg, b, after, txs, preserve), after)
  {
    RestampChangesNothing(cfg.rates, before, b.txs, b.height, b.miner);
    var s := Sealed(cfg, b, after, txs, preserve);
    var rooted := b.(txs := txs, totalBurned := TotalBurned(txs), stateRoot := cfg.root(after));
    assert s.(hash := "") == rooted.(hash := "");
  }

  // ----- what one add_block does -----

  /** The row that a successful `add_block` stores, and the accounts it was executed to. */
  ghost function RowOf(cfg: Config, ch: ChainState, b: Block, preserve: bool): (row: Block)
    requires ExecBlock(cfg.rates, ch.accounts, b).Executed?
  {
    var e := ExecBlock(cfg.rates, ch.accounts, b);
    Sealed(cfg, b, e.accounts, e.txs, preserve)
  }

  /** A successful `add_block` in one piece: row, table and accounts. */
  lemma AddedIs(cfg: Config, ch: ChainState, b: Block, preserve: bool, authorized: bool)
    requires AddBlock(cfg, ch, b, preserve, authorized).ok
    ensures Fits(ch, b) && AllSigned(cfg.rates, b.txs) && ExecBlock(cfg.rates, ch.accounts, b).Executed?
    ensures var r := AddBlock(cfg, ch, b, preserve, authorized).ch;
            var after := ExecBlock(cfg.rates, ch.accounts, b).accounts;
            var row := RowOf(cfg, ch, b, preserve);
            && row.height == b.height && row.parentHash == b.parentHash && row.miner == b.miner
            && row.totalBurned == BurnOf(cfg.rates, b.txs)
            && row.timestamp == b.timestamp && row.extra == b.extra
            && row.hash == (if preserve && b.hash != "" then b.hash else cfg.blockHash(row.(hash := "")))
            && Faithful(cfg, ch.accounts, row, after)
            && r.accounts == Credited(cfg.rates, after, row)
            && r.blocks == Put(ch.blocks, row)
            && r.baseline == ch.baseline
  {
    hide ApplyTxs, ApplyReward, Fits, Credited;
    var e := ExecBlock(cfg.rates, ch.accounts, b);
    BurnedIsBurnOf(cfg.rates, ch.accounts, b.txs, b.height, b.miner);
    SealedIsFaithful(cfg, ch.accounts, b, e.accounts, e.txs, preserve);
  }

  /**
   Which blocks `add_block` takes: the height is free and follows the last row, the parent is that
   row, a named miner is authorized, not slashed and has not proposed at this height, all
   transactions are signed and execute, and an imported root of full length matches where roots
   are enforced.
   */
  lemma AddBlockOkIff(cfg: Config, ch: ChainState, b: Block, preserve: bool, authorized: bool)
    ensures AddBlock(cfg, ch, b, preserve, authorized).ok <==>
              && b.height !in ch.blocks
              && (ch.blocks == map[] ==> b.height == 0 || b.height == 1)
              && (ch.blocks != map[] ==>
                    b.height == ch.blocks[Tip(ch.blocks)].height + 1 && b.parentHash == ch.blocks[Tip(ch.blocks)].hash)
              && (b.miner != "" && b.miner != "genesis" ==>
                    authorized && (ch.slashing.Some? ==>
                      && b.miner !in ch.slashing.value.slashed
                      && (b.height in ch.slashing.value.proposals ==> b.miner !in ch.slashing.value.proposals[b.height])))
              && (forall i :: 0 <= i < |b.txs| ==> cfg.rates.signatureOk(b.txs[i].core))
              && ExecBlock(cfg.rates, ch.accounts, b).Executed?
              && (preserve && |b.stateRoot| >= 64 && cfg.verifyPeerRoot && cfg.strictPeerRoot && b.height > ch.baseline ==>
                    b.stateRoot == cfg.root(ExecBlock(cfg.rates, ch.accounts, b).accounts))
  {
    hide ExecBlock, Sealed, Credited, Put, Tip;
  }

  /** Every stored row survives a new one if and only if the new hash is not stored yet. */
  lemma PutKeepsRowsIff(blocks: Store, row: Block)
    requires row.height !in blocks
    ensures (forall k :: k in blocks ==> k in Put(blocks, row) && Put(blocks, row)[k] == blocks[k])
            <==> !HashStored(blocks, row.hash)
  {
    if k :| k in blocks && blocks[k].hash == row.hash {
      assert k !in Put(blocks, row);
    }
  }

  lemma PutKeepsTable(blocks: Store, row: Block)
    requires Table(blocks) && row.height >= 0
    ensures Table(Put(blocks, row)) && Tip(Put(blocks, row)) >= row.height
  {
    assert row.height in Put(blocks, row);
  }

  /** On a complete chain the next row goes on top; the chain stays complete unless a row was replaced. */
  lemma PutOnTop(blocks: Store, row: Block)
    requires Table(blocks) && Contiguous(blocks, Tip(blocks)) && row.height == Tip(blocks) + 1
    ensures Tip(Put(blocks, row)) == row.height
    ensures Contiguous(Put(blocks, row), row.height) <==> !HashStored(blocks, row.hash)
  {
    hide Tip;
    var r := Put(blocks, row);
    assert row.height in r && r != map[];
    assert forall k :: k in r ==> k in blocks || k == row.height;
    assert Tip(r) == row.height;
    if k :| k in blocks && blocks[k].hash == row.hash {
      assert k !in r && 0 <= k <= row.height;
    }
  }

  /** The second credit always changes the account table. */
  lemma CreditIsVisible(rates: Rates, accounts: Accounts, b: Block)
    ensures Credited(rates, accounts, b) == accounts <==> BurnCredit(rates, b) == 0.0
  {
    if BurnCredit(rates, b) > 0.0 && rates.burnAddress in accounts {
      assert Credited(rates, accounts, b)[rates.burnAddress].balance != accounts[rates.burnAddress].balance;
    }
  }

  lemma TipRow(cfg: Config, ch: ChainState)
    requires Consistent(cfg, ch)
    ensures ch.blocks != map[] && Tip(ch.blocks) in ch.blocks && ch.blocks[Tip(ch.blocks)].height == Tip(ch.blocks)
  {
    assert 0 in ch.blocks;
  }

  lemma LinkedPrefix(cfg: Config, start: Accounts, a: Store, b: Store, i: int)
    requires i >= 1 && Linked(cfg, start, a, i)
    requires forall k :: 0 <= k <= i ==> (k in a <==> k in b) && (k in a ==> a[k] == b[k])
    ensures Linked(cfg, start, b, i)
  {
    hide Faithful, ExecBlock;
    StateAtPrefix(cfg.rates, start, a, b, i);
    StateAtPrefix(cfg.rates, start, a, b, i - 1);
  }

  /** Extending a linked chain by a faithful row. */
  lemma LinkedOnTop(cfg: Config, start: Accounts, blocks: Store, row: Block, before: Accounts, after: Accounts)
    requires Contiguous(blocks, row.height - 1) && !HashStored(blocks, row.hash)
    requires row.parentHash == blocks[row.height - 1].hash
    requires StateAt(cfg.rates, start, blocks, row.height - 1) == Some(before) && Faithful(cfg, before, row, after)
    ensures Linked(cfg, start, Put(blocks, row), row.height)
    ensures StateAt(cfg.rates, start, Put(blocks, row), row.height) == Some(after)
  {
    hide ExecBlock;
    StateAtPrefix(cfg.rates, start, blocks, Put(blocks, row), row.height - 1);
  }

  /**
   From a consistent chain, a successful `add_block` leaves a consistent chain if and only if
   the block burns nothing that persisting it credits again, which can be read from the gas of
   its transactions, and its hash is not stored yet.
   */
  lemma AddKeepsConsistentIff(cfg: Config, ch: ChainState, b: Block, preserve: bool, authorized: bool)
    requires Consistent(cfg, ch) && AddBlock(cfg, ch, b, preserve, authorized).ok
    ensures Consistent(cfg, AddBlock(cfg, ch, b, preserve, authorized).ch) <==>
              && (BurnOf(cfg.rates, b.txs) <= 0.0 || cfg.rates.burnAddress == "")
              && !HashStored(ch.blocks, RowOf(cfg, ch, b, preserve).hash)
  {
    hide ExecBlock, AddBlock, Faithful, RowOf, Put, Credited, HashStored, StateAt, Linked, Table;
    AddedIs(cfg, ch, b, preserve, authorized);
    TipRow(cfg, ch);
    var row := RowOf(cfg, ch, b, preserve);
    var after := ExecBlock(cfg.rates, ch.accounts, b).accounts;
    var r := AddBlock(cfg, ch, b, preserve, authorized).ch;
    PutOnTop(ch.blocks, row);
    PutKeepsTable(ch.blocks, row);
    CreditIsVisible(cfg.rates, after, row);
    if !HashStored(ch.blocks, row.hash) {
      LinkedOnTop(cfg, LiveAlloc(cfg), ch.blocks, row, ch.accounts, after);
      PutKeepsRowsIff(ch.blocks, row);
      forall i | 1 <= i < row.height ensures Linked(cfg, LiveAlloc(cfg), r.blocks, i) {
        LinkedPrefix(cfg, LiveAlloc(cfg), ch.blocks, r.blocks, i);
      }
    }
  }

  /** A refused block changes neither table. */
  lemma RefusedAddChangesNoTable(cfg: Config, ch: ChainState, b: Block, preserve: bool, authorized: bool)
    requires !AddBlock(cfg, ch, b, preserve, authorized).ok
    ensures var r := AddBlock(cfg, ch, b, preserve, authorized).ch;
            r.accounts == ch.accounts && r.blocks == ch.blocks && r.baseline == ch.baseline
  {
    hide ExecBlock, Sealed, Credited, Put;
  }

  function OneTransfer(): Tx {
    Tx(TxCore("a", "b", 0.0, 0, 1, "", ""), 0.0, 0.0, 0, 0)
  }

  /** A block with one transfer by "a", mined by "m". */
  function OneTransferBlock(genesis: Block): Block {
    Block(1, genesis.hash, "m", [OneTransfer()], 0, "", "", "", 0.0)
  }

  ghost predicate FullSupply(rates: Rates, accounts: Accounts) {
    && rates == Rates(1.0, 1.0, "burn", "", 0.0, 10.0, 0, rates.signatureOk) && rates.signatureOk(OneTransfer().core)
    && accounts == map["a" := Account(10.0, 0)]
  }

  /**
   The smallest case: one transfer whose whole fee of 1 burns, on a full supply of 10. The block
   is accepted, the burn address gets 2, the supply passes its cap by 1, and the accounts are no
   longer the fold of the chain.
   */
  lemma OneTransferDrifts(cfg: Config, genesis: Block)
    requires FullSupply(cfg.rates, LiveAlloc(cfg))
    ensures var start := Genesis(cfg, genesis, None);
            var r := AddBlock(cfg, start, OneTransferBlock(genesis), false, true);
            && Consistent(cfg, start) && r.ok && !Consistent(cfg, r.ch)
            && Balance(r.ch.accounts, "burn") == 2.0
            && Total(r.ch.accounts) == cfg.rates.maxSupply + 1.0
  {
    hide ExecBlock, Total, Consistent;
    var start, b := Genesis(cfg, genesis, None), OneTransferBlock(genesis);
    GenesisIsConsistent(cfg, genesis, None);
    OneTransferExecutes(cfg.rates, start.accounts, b);
    assert Fits(start, b) by { assert Tip(start.blocks) == 0; }
    var e := ExecBlock(cfg.rates, start.accounts, b);
    assert BurnCredit(cfg.rates, RowOf(cfg, start, b, false)) == 1.0;
    AddKeepsConsistentIff(cfg, start, b, false, true);
    DeltaChangesTotal(e.accounts, "burn", 1.0);
  }

  /** Start-up establishes the replay invariant. */
  lemma GenesisIsConsistent(cfg: Config, genesis: Block, slashing: Option<Slashing.State>)
    ensures Consistent(cfg, Genesis(cfg, genesis, slashing))
  {
    assert Tip(Genesis(cfg, genesis, slashing).blocks) == 0;
  }

  lemma OneTransferExecutes(rates: Rates, accounts: Accounts, b: Block)
    requires FullSupply(rates, accounts) && b.height == 1 && b.miner == "m" && b.txs == [OneTransfer()]
    ensures var r := ExecBlock(rates, accounts, b);
            && r.Executed? && NonNegative(r.accounts)
            && Total(r.accounts) == 10.0 && Balance(r.accounts, "burn") == 1.0
            && TotalBurned(r.txs) == 1.0
  {
    hide Total, Transfer, ApplyTxs, Fee, Burn;
    var tx := OneTransfer();
    TransferOfOne(rates, accounts);
    OneFee(rates, accounts);
    var after := Transfer(rates, accounts, tx.core, "m");
    assert ApplyTx(rates, accounts, tx, 1, "m") == Applied(after, Stamp(rates, tx, 1));
    OneTxApplied(rates, accounts, tx, 1, "m");
    assert Reward(rates, after) == 0.0;
  }

  lemma OneFee(rates: Rates, accounts: Accounts)
    requires FullSupply(rates, accounts)
    ensures Fee(rates, OneTransfer().core) == 1.0 && Burn(rates, OneTransfer().core) == 1.0
    ensures Balance(accounts, "a") == 10.0 && Nonce(accounts, "a") == 0
  {
  }

  lemma OneTxApplied(rates: Rates, accounts: Accounts, tx: Tx, height: int, proposer: string)
    requires ApplyTx(rates, accounts, tx, height, proposer).Applied?
    ensures var r := ApplyTx(rates, accounts, tx, height, proposer);
            && ApplyTxs(rates, accounts, [tx], height, proposer) == Executed(r.accounts, [r.tx])
            && TotalBurned([r.tx]) == r.tx.burned
  {
    hide ApplyTx;
    var r := ApplyTx(rates, accounts, tx, height, proposer);
    assert [tx][..0] == [] && [r.tx][..0] == [];
    assert ApplyTxs(rates, accounts, [], height, proposer) == Executed(accounts, []);
    assert TotalBurned([]) == 0.0;
  }

  lemma TransferOfOne(rates: Rates, accounts: Accounts)
    requires FullSupply(rates, accounts)
    ensures var after := Transfer(rates, accounts, OneTransfer().core, "m");
            NonNegative(after) && Total(after) == 10.0 && Balance(after, "burn") == 1.0
  {
    hide Transfer;
    var core := OneTransfer().core;
    assert Total(accounts) == 10.0 by {
      TotalRemove(accounts, "a");
      assert accounts - {"a"} == map[];
    }
    TransferChangesTotal(rates, accounts, core, "m");
    TransferFlows(rates, accounts, core, "m", "burn");
  }
}
