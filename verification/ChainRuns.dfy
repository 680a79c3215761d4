/**
 Runs of `add_block`, `reorg_to_ancestor` and `ensure_state_at_tip`: which stored rows survive,
 what the finalized floor protects, and what the proposal log remembers.
 */
module ChainRuns {
  import opened Wrappers
  import opened Ledger
  import opened Chain
  import Slashing

  datatype Event =
    | Add(b: Block, preserve: bool, authorized: bool)
    | Reorg(h: int, floor: int)
    | EnsureTip(floor: int)
    | SetBaseline(height: int)

  ghost function Apply(cfg: Config, ch: ChainState, e: Event): (r: Response) {
    match e
    case Add(b, preserve, authorized) => AddBlock(cfg, ch, b, preserve, authorized)
    case Reorg(h, floor) => ReorgTo(cfg, ch, h, floor)
    case EnsureTip(floor) => EnsureStateAtTip(cfg, ch, floor)
    case SetBaseline(height) => Response(ch.(baseline := height), true)
  }

  ghost function Run(cfg: Config, ch: ChainState, events: seq<Event>): ChainState {
    if events == [] then ch
    else Apply(cfg, Run(cfg, ch, events[..|events| - 1]), events[|events| - 1]).ch
  }

  // ----- the table over runs -----

  /** A rollback keeps a part of the table and nothing else. */
  lemma ReorgKeepsRows(cfg: Config, ch: ChainState, h: int, floor: int)
    ensures var r := ReorgTo(cfg, ch, h, floor).ch;
            && (r.blocks == ch.blocks || (r.blocks == Below(ch.blocks, h) && !(floor > 0 && h < floor)))
            && r.slashing == ch.slashing && r.baseline == ch.baseline
  {
    hide StateAt;
  }

  lemma ApplyKeepsTable(cfg: Config, ch: ChainState, e: Event)
    requires Table(ch.blocks)
    ensures Table(Apply(cfg, ch, e).ch.blocks)
  {
    hide ReorgTo, AddBlock, Put, RowOf, Faithful;
    match e
    case Add(b, preserve, authorized) =>
      if AddBlock(cfg, ch, b, preserve, authorized).ok {
        AddedIs(cfg, ch, b, preserve, authorized);
        PutKeepsTable(ch.blocks, RowOf(cfg, ch, b, preserve));
      } else {
        RefusedAddChangesNoTable(cfg, ch, b, preserve, authorized);
      }
    case Reorg(h, floor) => ReorgKeepsRows(cfg, ch, h, floor);
    case EnsureTip(floor) => ReorgKeepsRows(cfg, ch, Tip(ch.blocks), floor);
    case SetBaseline(_) =>
  }

  /** In every run each row sits at its own height and no hash is stored twice. */
  lemma {:induction false} RunKeepsTable(cfg: Config, ch: ChainState, events: seq<Event>)
    requires Table(ch.blocks)
    ensures Table(Run(cfg, ch, events).blocks)
  {
    hide Apply, Table;
    if events != [] {
      RunKeepsTable(cfg, ch, events[..|events| - 1]);
      ApplyKeepsTable(cfg, Run(cfg, ch, events[..|events| - 1]), events[|events| - 1]);
    }
  }

  // ----- rows that disappear -----

  /** A rollback to a negative height is not refused without a floor, and empties the table. */
  lemma NegativeReorgEmptiesTable(cfg: Config, ch: ChainState, h: int, floor: int)
    requires Table(ch.blocks) && h < 0 && floor <= 0
    ensures ReorgTo(cfg, ch, h, floor).ok && ReorgTo(cfg, ch, h, floor).ch.blocks == map[]
    ensures ReorgTo(cfg, ch, h, floor).ch.accounts == ReplayAlloc(cfg)
  {
  }

  /** A block without transactions and without a named miner, carrying a given hash. */
  ghost function HashCarrier(blocks: Store, hash: string, timestamp: int): Block
    requires blocks != map[]
  {
    Block(Tip(blocks) + 1, blocks[Tip(blocks)].hash, "", [], timestamp, "", "", hash, 0.0)
  }

  /**
   Any row can be erased from outside: an imported block without transactions that carries the
   hash of row `k` is accepted whatever its timestamp, because a peer's hash is stored unchecked,
   and replaces the row.
   */
  lemma ImportErasesRow(cfg: Config, ch: ChainState, k: int, timestamp: int)
    requires Table(ch.blocks) && k in ch.blocks && ch.blocks[k].hash != ""
    ensures var r := AddBlock(cfg, ch, HashCarrier(ch.blocks, ch.blocks[k].hash, timestamp), true, true);
            r.ok && k !in r.ch.blocks && Tip(ch.blocks) + 1 in r.ch.blocks
  {
    hide ApplyReward, Credited;
    var b := HashCarrier(ch.blocks, ch.blocks[k].hash, timestamp);
    assert Fits(ch, b);
    assert ApplyTxs(cfg.rates, ch.accounts, [], b.height, b.miner) == Executed(ch.accounts, []);
    AddedIs(cfg, ch, b, true, true);
  }

  /** The event stores a block whose hash a row at height `f` or below already has. */
  ghost predicate Erases(cfg: Config, ch: ChainState, e: Event, f: int) {
    && e.Add? && AddBlock(cfg, ch, e.b, e.preserve, e.authorized).ok
    && ExecBlock(cfg.rates, ch.accounts, e.b).Executed?
    && exists k :: k in ch.blocks && k <= f && ch.blocks[k].hash == RowOf(cfg, ch, e.b, e.preserve).hash
  }

  /** For an accepted import with a hash of its own, that can be read from the block. */
  lemma ImportErasesIff(cfg: Config, ch: ChainState, b: Block, authorized: bool, f: int)
    requires AddBlock(cfg, ch, b, true, authorized).ok && b.hash != ""
    ensures Erases(cfg, ch, Add(b, true, authorized), f) <==>
              exists k :: k in ch.blocks && k <= f && ch.blocks[k].hash == b.hash
  {
    hide AddBlock, ExecBlock, RowOf, Faithful, Fits;
    AddedIs(cfg, ch, b, true, authorized);
  }

  ghost predicate KeepsRows(before: Store, after: Store, f: int) {
    forall k :: k in before && k <= f ==> k in after && after[k] == before[k]
  }

  predicate FloorAtLeast(e: Event, f: int) {
    (e.Reorg? || e.EnsureTip?) ==> e.floor >= f
  }

  /**
   A step that sees a floor of at least f > 0 keeps every row up to height f if and only if it
   does not store a hash that one of them has.
   */
  lemma ApplyKeepsFloorIff(cfg: Config, ch: ChainState, e: Event, f: int)
    requires Table(ch.blocks) && FloorAtLeast(e, f) && f > 0
    ensures KeepsRows(ch.blocks, Apply(cfg, ch, e).ch.blocks, f) <==> !Erases(cfg, ch, e, f)
  {
    hide ReorgTo, AddBlock, RowOf, Faithful, ExecBlock;
    match e
    case Add(b, preserve, authorized) =>
      if AddBlock(cfg, ch, b, preserve, authorized).ok {
        AddedIs(cfg, ch, b, preserve, authorized);
        PutErases(ch.blocks, RowOf(cfg, ch, b, preserve), f);
      } else {
        RefusedAddChangesNoTable(cfg, ch, b, preserve, authorized);
      }
    case Reorg(h, floor) => ReorgKeepsRows(cfg, ch, h, floor);
    case EnsureTip(floor) => ReorgKeepsRows(cfg, ch, Tip(ch.blocks), floor);
    case SetBaseline(_) =>
  }

  lemma PutErases(blocks: Store, row: Block, f: int)
    requires row.height !in blocks
    ensures KeepsRows(blocks, Put(blocks, row), f) <==>
              !exists k :: k in blocks && k <= f && blocks[k].hash == row.hash
  {
    if k :| k in blocks && k <= f && blocks[k].hash == row.hash {
      assert k !in Put(blocks, row);
    }
  }

  /** No block of the run arrives with a hash that a row at height `f` or below has by then. */
  ghost predicate NeverErases(cfg: Config, ch: ChainState, events: seq<Event>, f: int) {
    forall i :: 0 <= i < |events| ==> !Erases(cfg, Run(cfg, ch, events[..i]), events[i], f)
  }

  /**
   Finalized blocks stay: while every rollback sees a floor of at least f > 0 and no stored hash
   is imported again, the rows at heights up to f are never removed or changed.
   */
  lemma {:induction false} FinalizedPrefixStays(cfg: Config, ch: ChainState, events: seq<Event>, f: int)
    requires Table(ch.blocks) && f > 0
    requires (forall i :: 0 <= i < |events| ==> FloorAtLeast(events[i], f)) && NeverErases(cfg, ch, events, f)
    ensures KeepsRows(ch.blocks, Run(cfg, ch, events).blocks, f)
  {
    hide Apply, Erases, Table;
    if events != [] {
      var last := |events| - 1;
      forall i | 0 <= i < last ensures !Erases(cfg, Run(cfg, ch, events[..last][..i]), events[..last][i], f) {
        assert events[..last][..i] == events[..i];
      }
      FinalizedPrefixStays(cfg, ch, events[..last], f);
      assert FloorAtLeast(events[last], f);
      RunKeepsTable(cfg, ch, events[..last]);
      ApplyKeepsFloorIff(cfg, Run(cfg, ch, events[..last]), events[last], f);
    }
  }

  // ----- the proposal log is never rolled back -----

  /** Every stored block by a named miner is in the slashing engine's proposal log. */
  ghost predicate ProposalsLogged(ch: ChainState) {
    ch.slashing.Some? &&
    forall k :: k in ch.blocks && k >= 1 && NamedMiner(ch.blocks[k]) ==>
      ch.blocks[k].miner in Slashing.ProposersAt(ch.slashing.value, k)
  }

  ghost predicate LogGrows(before: ChainState, after: ChainState) {
    before.slashing.Some? ==>
      && after.slashing.Some?
      && forall v, h :: v in Slashing.ProposersAt(before.slashing.value, h) ==> v in Slashing.ProposersAt(after.slashing.value, h)
  }

  lemma ApplyKeepsProposalsLogged(cfg: Config, ch: ChainState, e: Event)
    ensures LogGrows(ch, Apply(cfg, ch, e).ch)
    ensures ProposalsLogged(ch) ==> ProposalsLogged(Apply(cfg, ch, e).ch)
  {
    hide ExecBlock, ReorgTo, Fits;
    match e
    case Add(b, preserve, authorized) =>
    case Reorg(h, floor) => ReorgKeepsRows(cfg, ch, h, floor);
    case EnsureTip(floor) => ReorgKeepsRows(cfg, ch, Tip(ch.blocks), floor);
    case SetBaseline(_) =>
  }

  lemma {:induction false} RunKeepsProposalsLogged(cfg: Config, ch: ChainState, events: seq<Event>)
    ensures LogGrows(ch, Run(cfg, ch, events))
    ensures ProposalsLogged(ch) ==> ProposalsLogged(Run(cfg, ch, events))
  {
    hide Apply, ProposalsLogged;
    if events != [] {
      var last := |events| - 1;
      RunKeepsProposalsLogged(cfg, ch, events[..last]);
      ApplyKeepsProposalsLogged(cfg, Run(cfg, ch, events[..last]), events[last]);
    }
  }

  /** The block passes every check of `add_block` before the slashing engine is asked. */
  ghost predicate ReachesTheLog(cfg: Config, ch: ChainState, b: Block, preserve: bool, authorized: bool) {
    && Fits(ch, b) && ProposerOk(ch, b, authorized) && AllSigned(cfg.rates, b.txs)
    && ExecBlock(cfg.rates, ch.accounts, b).Executed?
    && !RootRejected(cfg, ch, b, preserve, cfg.root(ExecBlock(cfg.rates, ch.accounts, b).accounts))
  }

  /**
   With a slashing engine a rollback cannot be undone: if a named miner's block is stored at
   height k at some point of a run, then at every later point (rolled back or not) a block of
   that miner at height k is refused, the same block included, and the miner is slashed if and
   only if it was already or the block passes all the other checks.
   */
  lemma ReimportSlashesProposer(
      cfg: Config, genesis: Block, slashing: Slashing.State, events: seq<Event>, later: seq<Event>,
      k: int, b: Block, preserve: bool, authorized: bool)
    requires var ch := Run(cfg, Genesis(cfg, genesis, Some(slashing)), events);
             k >= 1 && k in ch.blocks && NamedMiner(ch.blocks[k]) && b.height == k && b.miner == ch.blocks[k].miner
    ensures var now := Run(cfg, Run(cfg, Genesis(cfg, genesis, Some(slashing)), events), later);
            var r := AddBlock(cfg, now, b, preserve, authorized);
            && now.slashing.Some? && r.ch.slashing.Some? && !r.ok
            && r.ch.accounts == now.accounts && r.ch.blocks == now.blocks
            && (b.miner in r.ch.slashing.value.slashed <==>
                  b.miner in now.slashing.value.slashed || ReachesTheLog(cfg, now, b, preserve, authorized))
  {
    hide ExecBlock, Sealed, Run, Fits;
    var start := Genesis(cfg, genesis, Some(slashing));
    var ch := Run(cfg, start, events);
    RunKeepsProposalsLogged(cfg, start, events);
    RunKeepsProposalsLogged(cfg, ch, later);
    assert ProposalsLogged(start);
    var now := Run(cfg, ch, later);
    assert b.miner in Slashing.ProposersAt(now.slashing.value, k);
  }
}
