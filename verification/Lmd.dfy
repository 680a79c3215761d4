/** The latest-message table of consensus/lmd.py and the block weights it induces. */
module Lmd {
  import opened Sums
  import opened Ghost

  datatype Vote = Vote(block: string, slot: int)

  function StakeOf(stakes: map<string, int>): string -> int {
    (v: string) => if v in stakes then stakes[v] else 0
  }

  /** Validators whose latest vote is for one of the given blocks. */
  function VotersFor(latest: map<string, Vote>, blocks: set<string>): (voters: set<string>)
    ensures voters <= latest.Keys
  {
    set v | v in latest && latest[v].block in blocks
  }

  ghost function StakeBehind(latest: map<string, Vote>, stakes: map<string, int>, blocks: set<string>): int {
    Sum(VotersFor(latest, blocks), StakeOf(stakes))
  }

  /** The weight of each block: the stake of the validators who voted for it last. */
  ghost function BlockWeight(latest: map<string, Vote>, stakes: map<string, int>): string -> int {
    (h: string) => StakeBehind(latest, stakes, {h})
  }

  lemma VotersSplit(latest: map<string, Vote>, blocks: set<string>, h: string)
    requires h in blocks
    ensures VotersFor(latest, blocks) == VotersFor(latest, {h}) + VotersFor(latest, blocks - {h})
    ensures VotersFor(latest, {h}) !! VotersFor(latest, blocks - {h})
  {
  }

  /** Every latest vote counts once: block weights over a set add up to the stake voting in it. */
  lemma {:induction false} VotesAddUp(latest: map<string, Vote>, stakes: map<string, int>, blocks: set<string>)
    ensures Sum(blocks, BlockWeight(latest, stakes)) == StakeBehind(latest, stakes, blocks)
    decreases |blocks|
  {
    if blocks == {} {
      assert VotersFor(latest, blocks) == {};
    } else {
      hide Sum, VotersFor;
      var h :| h in blocks;
      SumRemove(blocks, BlockWeight(latest, stakes), h);
      VotesAddUp(latest, stakes, blocks - {h});
      VotersSplit(latest, blocks, h);
      SumUnion(VotersFor(latest, {h}), VotersFor(latest, blocks - {h}), StakeOf(stakes));
    }
  }

  /** Taking a validator's vote out of the table changes some weight if and only if it has a vote and stake. */
  lemma VoteWeighsIff(latest: map<string, Vote>, stakes: map<string, int>, v: string)
    ensures (exists h :: BlockWeight(latest, stakes)(h) != BlockWeight(latest - {v}, stakes)(h))
            <==> v in latest && v in stakes && stakes[v] != 0
  {
    hide Sum;
    forall h ensures BlockWeight(latest, stakes)(h) == BlockWeight(latest - {v}, stakes)(h)
                       + (if v in latest && latest[v].block == h then StakeOf(stakes)(v) else 0) {
      var all, rest := VotersFor(latest, {h}), VotersFor(latest - {v}, {h});
      if v in latest && latest[v].block == h {
        assert all == rest + {v};
        SumAdd(rest, StakeOf(stakes), v);
      } else {
        assert all == rest;
      }
    }
    if v in latest && StakeOf(stakes)(v) != 0 {
      var h := latest[v].block;
      assert BlockWeight(latest, stakes)(h) != BlockWeight(latest - {v}, stakes)(h);
    }
  }

  /** Stake behind block `x` of the voters that are no longer in `left`. */
  ghost function Counted(latest: map<string, Vote>, stakes: map<string, int>, left: set<string>, x: string): int {
    Sum(VotersFor(latest, {x}) - left, StakeOf(stakes))
  }

  /** Counting one more voter changes the sum of its own block only. */
  lemma CountVoter(latest: map<string, Vote>, stakes: map<string, int>, left: set<string>, v: string)
    requires v in left && v in latest
    ensures forall x :: Counted(latest, stakes, left - {v}, x)
              == Counted(latest, stakes, left, x) + (if x == latest[v].block then StakeOf(stakes)(v) else 0)
  {
    hide Sum;
    forall x ensures Counted(latest, stakes, left - {v}, x)
                     == Counted(latest, stakes, left, x) + (if x == latest[v].block then StakeOf(stakes)(v) else 0) {
      var done := VotersFor(latest, {x}) - left;
      if x == latest[v].block {
        assert VotersFor(latest, {x}) - (left - {v}) == done + {v};
        SumAdd(done, StakeOf(stakes), v);
      } else {
        assert VotersFor(latest, {x}) - (left - {v}) == done;
      }
    }
  }

  lemma CountedBounds(latest: map<string, Vote>, stakes: map<string, int>)
    ensures forall x :: Counted(latest, stakes, latest.Keys, x) == 0
    ensures forall x :: Counted(latest, stakes, {}, x) == BlockWeight(latest, stakes)(x)
  {
    forall x ensures Counted(latest, stakes, latest.Keys, x) == 0 {
      assert VotersFor(latest, {x}) - latest.Keys == {};
    }
    forall x ensures Counted(latest, stakes, {}, x) == BlockWeight(latest, stakes)(x) {
      assert VotersFor(latest, {x}) - {} == VotersFor(latest, {x});
    }
  }

  /** The loop of `get_weights` over the latest votes. */
  method AccumulateWeights(latest: map<string, Vote>, stakes: map<string, int>) returns (weights: map<string, int>)
    ensures forall h :: Get(weights)(h) == BlockWeight(latest, stakes)(h)
  {
    hide Counted, BlockWeight;
    CountedBounds(latest, stakes);
    weights := map[];
    var left := latest.Keys;
    while left != {}
      invariant left <= latest.Keys
      invariant forall h :: Get(weights)(h) == Counted(latest, stakes, left, h)
      decreases |left|
    {
      var v :| v in left;
      var block := latest[v].block;
      var stake := if v in stakes then stakes[v] else 0;
      CountVoter(latest, stakes, left, v);
      weights := weights[block := (if block in weights then weights[block] else 0) + stake];
      left := left - {v};
    }
  }

  class LMDTable {
    var latestVote: map<string, Vote>
    var validatorStake: map<string, int>

    constructor ()
      ensures latestVote == map[] && validatorStake == map[]
    {
      latestVote, validatorStake := map[], map[];
    }

    method AddValidator(v: string, stake: int)
      modifies this`validatorStake
      ensures validatorStake == old(validatorStake)[v := stake]
    {
      validatorStake := validatorStake[v := stake];
    }

    /** Only a registered validator's newer slot replaces the vote. */
    method Update(v: string, block: string, slot: int) returns (ok: bool)
      modifies this`latestVote
      ensures ok <==> v in validatorStake && (v !in old(latestVote) || slot > old(latestVote)[v].slot)
      ensures latestVote == if ok then old(latestVote)[v := Vote(block, slot)] else old(latestVote)
    {
      if v !in validatorStake { return false; }
      if v !in latestVote || slot > latestVote[v].slot {
        latestVote := latestVote[v := Vote(block, slot)];
        return true;
      }
      return false;
    }

    /** The `total_stake` entry of the statistics. */
    method TotalStake() returns (total: int)
      ensures total == Sum(validatorStake.Keys, StakeOf(validatorStake))
    {
      total := 0;
      var left := validatorStake.Keys;
      while left != {}
        invariant left <= validatorStake.Keys
        invariant total + Sum(left, StakeOf(validatorStake)) == Sum(validatorStake.Keys, StakeOf(validatorStake))
        decreases |left|
      {
        var v :| v in left;
        SumRemove(left, StakeOf(validatorStake), v);
        total := total + validatorStake[v];
        left := left - {v};
      }
    }

    method GetWeights() returns (weights: map<string, int>)
      ensures forall h :: Get(weights)(h) == BlockWeight(latestVote, validatorStake)(h)
    {
      weights := AccumulateWeights(latestVote, validatorStake);
    }
  }
}
