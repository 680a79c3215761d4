/**
 A node: the chain of core/blockchain.py wired to the checkpoint engine through
 consensus/adapter.py. Every stored block is reported to the engine, and every rollback
 request sees the engine's finalized floor.
 */
module NodeRuns {
  import opened Wrappers
  import opened Ledger
  import opened Chain
  import opened ChainRuns
  import opened ChainDrift
  import opened ChainRollback
  import FinalityEngine
  import Slashing

  datatype Node = Node(ch: ChainState, finality: FinalityEngine.State)

  datatype NodeEvent =
    | NewBlock(b: Block, preserve: bool, authorized: bool)
    | Attest(v: string, epoch: int, hash: string)
    | Rollback(h: int)
    | CheckTip
    | Validators(count: int)

  /** What the chain sees of an event, given the current floor. */
  function ChainEvent(e: NodeEvent, floor: int): Event
    requires !e.Attest? && !e.Validators?
  {
    match e
    case NewBlock(b, preserve, authorized) => Add(b, preserve, authorized)
    case Rollback(h) => Reorg(h, floor)
    case CheckTip => EnsureTip(floor)
  }

  ghost function Floor(n: Node): int {
    FinalityEngine.Floor(n.finality)
  }

  ghost function Step(cfg: Config, n: Node, e: NodeEvent): Node {
    if e.Attest? then n.(finality := FinalityEngine.AddAttestation(n.finality, e.v, e.epoch, e.hash))
    else if e.Validators? then n.(finality := FinalityEngine.SetValidators(n.finality, e.count))
    else
      var r := Apply(cfg, n.ch, ChainEvent(e, Floor(n)));
      if e.NewBlock? && r.ok && e.b.height in r.ch.blocks then
        var row := r.ch.blocks[e.b.height];
        Node(r.ch, FinalityEngine.ProcessBlock(n.finality, row.height, row.hash, row.miner))
      else n.(ch := r.ch)
  }

  ghost function RunNode(cfg: Config, n: Node, events: seq<NodeEvent>): Node {
    if events == [] then n else Step(cfg, RunNode(cfg, n, events[..|events| - 1]), events[|events| - 1])
  }

  ghost predicate Healthy(n: Node) {
    Table(n.ch.blocks) && FinalityEngine.Sound(n.finality)
  }

  ghost function StartNode(cfg: Config, genesis: Block, slashing: Option<Slashing.State>, validators: int): Node {
    Node(Genesis(cfg, genesis, slashing), FinalityEngine.Start(validators))
  }

  lemma StartIsHealthy(cfg: Config, genesis: Block, slashing: Option<Slashing.State>, validators: int)
    ensures Healthy(StartNode(cfg, genesis, slashing, validators))
  {
    FinalityEngine.ReachableIsSound(validators, []);
  }

  /** The event stores a block whose hash a row at height `f` or below already has. */
  ghost predicate NodeErases(cfg: Config, n: Node, e: NodeEvent, f: int) {
    e.NewBlock? && Erases(cfg, n.ch, Add(e.b, e.preserve, e.authorized), f)
  }

  lemma FinalityStep(cfg: Config, n: Node, e: NodeEvent)
    requires FinalityEngine.Sound(n.finality)
    ensures FinalityEngine.Sound(Step(cfg, n, e).finality)
    ensures FinalityEngine.Extends(n.finality, Step(cfg, n, e).finality)
    ensures 0 <= Floor(n) <= Floor(Step(cfg, n, e))
  {
    hide FinalityEngine.Sound, Apply, FinalityEngine.ProcessBlock, FinalityEngine.AddAttestation,
      FinalityEngine.SetValidators, FinalityEngine.Floor, FinalityEngine.Extends;
    ExtendsItself(n.finality);
    var m := Step(cfg, n, e);
    if e.Attest? {
      FinalityEngine.AttestKeeps(n.finality, e.v, e.epoch, e.hash);
    } else if e.Validators? {
      FinalityEngine.SetValidatorsKeeps(n.finality, e.count);
    } else if m.finality != n.finality {
      var row := m.ch.blocks[e.b.height];
      FinalityEngine.ProcessKeeps(n.finality, row.height, row.hash, row.miner);
    }
    FinalityEngine.FloorRises(n.finality, m.finality);
  }

  /**
   One step of the node keeps table and checkpoints in order and never lowers the floor. The rows
   up to any height f > 0 that the floor has reached stay if and only if the step does not store
   a hash that one of them has.
   */
  lemma StepKeepsHealthy(cfg: Config, n: Node, e: NodeEvent, f: int)
    requires Healthy(n) && 0 < f <= Floor(n)
    ensures Healthy(Step(cfg, n, e)) && Floor(n) <= Floor(Step(cfg, n, e))
    ensures KeepsRows(n.ch.blocks, Step(cfg, n, e).ch.blocks, f) <==> !NodeErases(cfg, n, e, f)
  {
    hide Table, FinalityEngine.Sound, Apply, FinalityEngine.ProcessBlock, FinalityEngine.AddAttestation,
      FinalityEngine.SetValidators, FinalityEngine.Floor, Erases;
    FinalityStep(cfg, n, e);
    if !e.Attest? && !e.Validators? {
      var ce := ChainEvent(e, Floor(n));
      ApplyKeepsTable(cfg, n.ch, ce);
      ApplyKeepsFloorIff(cfg, n.ch, ce, f);
      if !e.NewBlock? { NoErasure(cfg, n.ch, ce, f); }
    }
  }

  lemma NoErasure(cfg: Config, ch: ChainState, e: Event, f: int)
    requires !e.Add?
    ensures !Erases(cfg, ch, e, f)
  {
  }

  lemma {:induction false} RunKeepsHealthy(cfg: Config, n: Node, events: seq<NodeEvent>)
    requires Healthy(n)
    ensures Healthy(RunNode(cfg, n, events)) && 0 <= Floor(n) <= Floor(RunNode(cfg, n, events))
    ensures FinalityEngine.Extends(n.finality, RunNode(cfg, n, events).finality)
  {
    hide Step, FinalityEngine.Sound, FinalityEngine.Floor, Table;
    FinalityStep(cfg, n, CheckTip);
    if events != [] {
      var last := |events| - 1;
      RunKeepsHealthy(cfg, n, events[..last]);
      var mid := RunNode(cfg, n, events[..last]);
      FinalityStep(cfg, mid, events[last]);
      TableStep(cfg, mid, events[last]);
    }
  }

  lemma TableStep(cfg: Config, n: Node, e: NodeEvent)
    requires Table(n.ch.blocks)
    ensures Table(Step(cfg, n, e).ch.blocks)
  {
    hide Table, Apply, FinalityEngine.ProcessBlock, FinalityEngine.Floor;
    if !e.Attest? && !e.Validators? { ApplyKeepsTable(cfg, n.ch, ChainEvent(e, Floor(n))); }
  }

  lemma ExtendsItself(s: FinalityEngine.State)
    ensures FinalityEngine.Extends(s, s)
  {
  }

  ghost predicate NeverErasesNode(cfg: Config, n: Node, events: seq<NodeEvent>, f: int) {
    forall i :: 0 <= i < |events| ==> !NodeErases(cfg, RunNode(cfg, n, events[..i]), events[i], f)
  }

  lemma {:induction false} ProtectedRowsStay(cfg: Config, n: Node, events: seq<NodeEvent>, f: int)
    requires Healthy(n) && 0 < f <= Floor(n) && NeverErasesNode(cfg, n, events, f)
    ensures KeepsRows(n.ch.blocks, RunNode(cfg, n, events).ch.blocks, f)
  {
    hide Step, Healthy, FinalityEngine.Floor, NodeErases;
    if events != [] {
      var last := |events| - 1;
      forall i | 0 <= i < last ensures !NodeErases(cfg, RunNode(cfg, n, events[..last][..i]), events[..last][i], f) {
        assert events[..last][..i] == events[..i];
      }
      ProtectedRowsStay(cfg, n, events[..last], f);
      RunKeepsHealthy(cfg, n, events[..last]);
      StepKeepsHealthy(cfg, RunNode(cfg, n, events[..last]), events[last], f);
    }
  }

  /**
   The whole node, from start-up: whatever blocks, attestations, rollbacks, repairs and changes
   of the validator count come, the rows that the floor protects after `events` are never removed
   or replaced by anything in `later`, as long as no hash of theirs is stored again.
   */
  lemma FinalizedBlocksAreForever(
      cfg: Config, genesis: Block, slashing: Option<Slashing.State>, validators: int,
      events: seq<NodeEvent>, later: seq<NodeEvent>)
    requires var n := RunNode(cfg, StartNode(cfg, genesis, slashing, validators), events);
             Floor(n) > 0 && NeverErasesNode(cfg, n, later, Floor(n))
    ensures var n := RunNode(cfg, StartNode(cfg, genesis, slashing, validators), events);
            var m := RunNode(cfg, n, later);
            KeepsRows(n.ch.blocks, m.ch.blocks, Floor(n)) && Floor(m) >= Floor(n)
  {
    hide RunNode, Healthy, FinalityEngine.Floor, NeverErasesNode, FinalityEngine.Extends;
    var start := StartNode(cfg, genesis, slashing, validators);
    var n := RunNode(cfg, start, events);
    StartIsHealthy(cfg, genesis, slashing, validators);
    RunKeepsHealthy(cfg, start, events);
    RunKeepsHealthy(cfg, n, later);
    ProtectedRowsStay(cfg, n, later, Floor(n));
  }

  // ----- checkpoints and the blocks they name -----

  /** The checkpoint's hash is the hash of the stored block at its number. */
  ghost predicate Anchored(n: Node, epoch: int) {
    && epoch in n.finality.checkpoints
    && var cp := n.finality.checkpoints[epoch];
       cp.blockNumber in n.ch.blocks && n.ch.blocks[cp.blockNumber].hash == cp.blockHash
  }

  /** The rollback goes through and cuts below height `k`. */
  ghost predicate CutsBelow(cfg: Config, n: Node, e: NodeEvent, k: int) {
    e.Rollback? && e.h < k && ReorgTo(cfg, n.ch, e.h, Floor(n)).ok
  }

  /**
   A checkpoint that names its stored block goes on naming it if and only if the step neither
   rolls the block back (checkpoints are never rolled back) nor stores its hash again.
   */
  lemma StaysAnchoredIff(cfg: Config, n: Node, e: NodeEvent, epoch: int)
    requires Healthy(n) && Anchored(n, epoch)
    ensures var k := n.finality.checkpoints[epoch].blockNumber;
            Anchored(Step(cfg, n, e), epoch) <==>
              !CutsBelow(cfg, n, e, k)
              && !(e.NewBlock? && AddBlock(cfg, n.ch, e.b, e.preserve, e.authorized).ok
                   && ExecBlock(cfg.rates, n.ch.accounts, e.b).Executed?
                   && RowOf(cfg, n.ch, e.b, e.preserve).hash == n.ch.blocks[k].hash)
  {
    hide Table, FinalityEngine.Sound, FinalityEngine.ProcessBlock, FinalityEngine.AddAttestation,
      FinalityEngine.SetValidators, FinalityEngine.Floor, AddBlock, ReorgTo, RowOf, Faithful, Credited;
    var k := n.finality.checkpoints[epoch].blockNumber;
    FinalityStep(cfg, n, e);
    match e
    case NewBlock(b, preserve, authorized) =>
      if AddBlock(cfg, n.ch, b, preserve, authorized).ok {
        AddedIs(cfg, n.ch, b, preserve, authorized);
      } else {
        RefusedAddChangesNoTable(cfg, n.ch, b, preserve, authorized);
      }
    case Rollback(h) => ReorgRows(cfg, n.ch, h, Floor(n));
    case CheckTip => ReorgRows(cfg, n.ch, Tip(n.ch.blocks), Floor(n));
    case Attest(_, _, _) =>
    case Validators(_) =>
  }

  lemma ReorgRows(cfg: Config, ch: ChainState, h: int, floor: int)
    ensures var r := ReorgTo(cfg, ch, h, floor);
            r.ch.blocks == if r.ok then Below(ch.blocks, h) else ch.blocks
  {
    hide StateAt;
    if h > Tip(ch.blocks) { assert Below(ch.blocks, h) == ch.blocks; }
  }

  /** A checkpoint created by a step names the block stored by that step. */
  lemma NewCheckpointIsAnchored(cfg: Config, n: Node, e: NodeEvent, epoch: int)
    requires Healthy(n) && epoch !in n.finality.checkpoints && epoch in Step(cfg, n, e).finality.checkpoints
    ensures Anchored(Step(cfg, n, e), epoch)
  {
    hide Table, AddBlock, ReorgTo, RowOf, Faithful, Credited, FinalityEngine.Floor, FinalityEngine.FinalizeRange,
      FinalityEngine.Sound;
    if e.NewBlock? {
      var r := AddBlock(cfg, n.ch, e.b, e.preserve, e.authorized);
      if r.ok && e.b.height in r.ch.blocks {
        AddedIs(cfg, n.ch, e.b, e.preserve, e.authorized);
        var row := r.ch.blocks[e.b.height];
        ProcessKeepsNewCheckpoint(n.finality, row.height, row.hash, row.miner, epoch);
      }
    }
  }

  lemma ProcessKeepsNewCheckpoint(s: FinalityEngine.State, number: int, hash: string, v: string, epoch: int)
    requires FinalityEngine.Sound(s) && epoch !in s.checkpoints
    requires epoch in FinalityEngine.ProcessBlock(s, number, hash, v).checkpoints
    ensures var cp := FinalityEngine.ProcessBlock(s, number, hash, v).checkpoints[epoch];
            cp.blockNumber == number && cp.blockHash == hash
  {
    hide FinalityEngine.Sound, FinalityEngine.FinalizeRange, FinalityEngine.Floor;
    var e := number / FinalityEngine.EPOCH_LENGTH;
    var s0 := FinalityEngine.CreateCheckpoint(s, number, hash);
    FinalityEngine.CreateKeeps(s, number, hash);
    FinalityEngine.AttestKeeps(s0, v, e, hash);
    var s1 := FinalityEngine.AddAttestation(s0, v, e, hash);
    FinalityEngine.FinalizeRangeKeeps(s1, s1.currentEpoch, e + 1);
    FinalityEngine.FinalizeRangeKeepsKeys(s1, s1.currentEpoch, e + 1);
  }

  /** Once finalized while it names its stored block, a checkpoint names it for ever. */
  lemma FinalizedStaysAnchored(cfg: Config, n: Node, events: seq<NodeEvent>, epoch: int)
    requires Healthy(n) && Anchored(n, epoch) && epoch in n.finality.finalized && Floor(n) > 0
    requires NeverErasesNode(cfg, n, events, Floor(n))
    ensures Anchored(RunNode(cfg, n, events), epoch)
  {
    hide RunNode, FinalityEngine.Sound, Table, NeverErasesNode;
    FinalityEngine.FloorIsMaximum(n.finality, n.finality.finalized);
    RunKeepsHealthy(cfg, n, events);
    ProtectedRowsStay(cfg, n, events, Floor(n));
  }

  /** Which rollbacks cut, in terms of floor, rows and lead. */
  lemma CutsBelowIff(cfg: Config, n: Node, t: Track, h: int, k: int)
    requires Tracked(cfg, n.ch, t) && AllocsAgree(cfg) && 1 <= h <= Tip(n.ch.blocks) && LeadShows(cfg, t, h)
    ensures h in t.lead
    ensures CutsBelow(cfg, n, Rollback(h), k) <==>
              h < k && Allowed(h, Floor(n)) && Stored(n.ch, h) && t.lead[h] == 0.0
  {
    hide Tracked, LeadShows, ReorgTo, Stored, Allowed, FinalityEngine.Floor;
    ReorgIff(cfg, n.ch, t, h, Floor(n));
  }

  function FirstBlock(genesis: Block): Block {
    Block(1, genesis.hash, "m", [], 0, "", "", "", 0.0)
  }

  /**
   The input: the first block of epoch 0 becomes its checkpoint, a rollback to genesis removes the
   block, and the checkpoint is left naming a block that is not stored.
   */
  lemma CheckpointLosesBlock(cfg: Config, genesis: Block)
    requires genesis.stateRoot == ""
    ensures var start := StartNode(cfg, genesis, None, 4);
            var first := Step(cfg, start, NewBlock(FirstBlock(genesis), false, true));
            && Anchored(first, 0)
            && 0 in Step(cfg, first, Rollback(0)).finality.checkpoints
            && !Anchored(Step(cfg, first, Rollback(0)), 0)
  {
    hide Table, FinalityEngine.Sound, Apply, AddBlock, ReorgTo;
    var start := StartNode(cfg, genesis, None, 4);
    var b := FirstBlock(genesis);
    FirstBlockIsStored(cfg, genesis);
    var first := Step(cfg, start, NewBlock(b, false, true));
    StartIsHealthy(cfg, genesis, None, 4);
    FirstCheckpoint(first.ch.blocks[1].hash);
    assert first.ch == AddBlock(cfg, start.ch, b, false, true).ch by { ApplyOfAdd(cfg, start.ch, b); }
    NewCheckpointIsAnchored(cfg, start, NewBlock(b, false, true), 0);
    RunKeepsHealthy(cfg, start, [NewBlock(b, false, true)]);
    assert [NewBlock(b, false, true)][..0] == [];
    assert RunNode(cfg, start, []) == start;
    StaysAnchoredIff(cfg, first, Rollback(0), 0);
    FinalityStep(cfg, first, Rollback(0));
  }

  lemma ApplyOfAdd(cfg: Config, ch: ChainState, b: Block)
    ensures Apply(cfg, ch, Add(b, false, true)) == AddBlock(cfg, ch, b, false, true)
  {
    hide AddBlock;
  }

  lemma FirstBlockIsStored(cfg: Config, genesis: Block)
    requires genesis.stateRoot == ""
    ensures var start := Genesis(cfg, genesis, None);
            var r := AddBlock(cfg, start, FirstBlock(genesis), false, true);
            && Apply(cfg, start, Add(FirstBlock(genesis), false, true)) == r
            && r.ok && 1 in r.ch.blocks && r.ch.blocks[1].height == 1 && r.ch.blocks[1].miner == "m"
            && ReorgTo(cfg, r.ch, 0, 0).ok
  {
    hide ApplyReward, Credited;
    var start, b := Genesis(cfg, genesis, None), FirstBlock(genesis);
    assert Tip(start.blocks) == 0 && Fits(start, b);
    assert ApplyTxs(cfg.rates, start.accounts, [], 1, "m") == Executed(start.accounts, []);
    assert AddBlock(cfg, start, b, false, true).ok;
    AddedIs(cfg, start, b, false, true);
    TipOfPut(start.blocks, RowOf(cfg, start, b, false));
  }

  lemma FirstCheckpoint(hash: string)
    ensures var s := FinalityEngine.ProcessBlock(FinalityEngine.Start(4), 1, hash, "m");
            && 0 in s.checkpoints && s.checkpoints[0].blockNumber == 1 && s.checkpoints[0].blockHash == hash
            && FinalityEngine.Floor(s) == 0
  {
    assert 1 / FinalityEngine.EPOCH_LENGTH == 0;
    var s0 := FinalityEngine.CreateCheckpoint(FinalityEngine.Start(4), 1, hash);
    var s1 := FinalityEngine.AddAttestation(s0, "m", 0, hash);
    assert s1.justified == [] && s1.finalized == [];
    assert FinalityEngine.FinalizeRange(s1, 0, 0) == s1;
    assert FinalityEngine.FinalizeRange(s1, 0, 1) == s1;
  }
}
