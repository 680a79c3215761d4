/**
 How far the live accounts are from the replay of the stored chain. Persisting a block credits
 its burned total a second time, after the root was computed and unseen by replay, so every row
 may have been executed on a table that is ahead of the replay at the burn address. The record
 kept here follows that lead along a run, and decides which rollbacks succeed.
 */
module ChainDrift {
  import opened Wrappers
  import opened Ledger
  import opened Chain
  import opened ChainRuns
  import Slashing

  /** Start-up and replay use the same genesis allocation. */
  ghost predicate AllocsAgree(cfg: Config) {
    LiveAlloc(cfg) == ReplayAlloc(cfg)
  }

  /**
   The rows of the chain, those that a later hash erased from the table included, and for each
   of them: the accounts it was executed on, the accounts right after it, and the lead it was
   executed with. `now` is the lead of the live accounts: the burned totals credited since the
   last replay.
   */
  datatype Track = Track(
    rows: Store, base: map<int, Accounts>, exec: map<int, Accounts>, lead: map<int, real>, now: real)

  function Upto<T>(m: map<int, T>, h: int): map<int, T> {
    map k | k in m && k <= h :: m[k]
  }

  function TrackStart(ch: ChainState): Track {
    Track(ch.blocks, map[], map[], map[], 0.0)
  }

  function TrackRow(rates: Rates, t: Track, row: Block, before: Accounts, after: Accounts): Track {
    Track(t.rows[row.height := row], t.base[row.height := before], t.exec[row.height := after],
          t.lead[row.height := t.now], t.now + BurnCredit(rates, row))
  }

  function TrackReplay(blocks: Store, t: Track, h: int): Track {
    Track(Below(blocks, h), Upto(t.base, h), Upto(t.exec, h), Upto(t.lead, h), 0.0)
  }

  /** The height to which the event replays the chain, if it does. */
  ghost function ReplaysTo(cfg: Config, ch: ChainState, e: Event): Option<int> {
    var tip := Tip(ch.blocks);
    if e.Reorg? && ReorgTo(cfg, ch, e.h, e.floor).ok && e.h <= tip then Some(e.h)
    else if e.EnsureTip? && tip > 0 && ch.blocks[tip].stateRoot != ""
            && ch.blocks[tip].stateRoot != cfg.root(ch.accounts) && ReorgTo(cfg, ch, tip, e.floor).ok then Some(tip)
    else None
  }

  ghost function TrackStep(cfg: Config, ch: ChainState, t: Track, e: Event): Track {
    if e.Add? && AddBlock(cfg, ch, e.b, e.preserve, e.authorized).ok && ExecBlock(cfg.rates, ch.accounts, e.b).Executed? then
      TrackRow(cfg.rates, t, RowOf(cfg, ch, e.b, e.preserve), ch.accounts, ExecBlock(cfg.rates, ch.accounts, e.b).accounts)
    else if ReplaysTo(cfg, ch, e).Some? then TrackReplay(ch.blocks, t, ReplaysTo(cfg, ch, e).value)
    else t
  }

  ghost function TrackRun(cfg: Config, ch: ChainState, events: seq<Event>): Track {
    if events == [] then TrackStart(ch)
    else
      var last := |events| - 1;
      TrackStep(cfg, Run(cfg, ch, events[..last]), TrackRun(cfg, ch, events[..last]), events[last])
  }

  // ----- the invariant -----

  ghost function Fold(cfg: Config, blocks: Store, i: int): Option<Accounts> {
    StateAt(cfg.rates, LiveAlloc(cfg), blocks, i)
  }

  /**
   `accounts` follows row `i` with the given lead: it is the row's result with the second
   credit, or the replay itself, with no lead.
   */
  ghost predicate Follows(cfg: Config, t: Track, i: int, accounts: Accounts, lead: real) {
    || (&& i in t.rows && i in t.exec && i in t.lead
        && accounts == Credited(cfg.rates, t.exec[i], t.rows[i])
        && lead == t.lead[i] + BurnCredit(cfg.rates, t.rows[i]))
    || (Fold(cfg, t.rows, i) == Some(accounts) && lead == 0.0)
  }

  ghost predicate RowOk(cfg: Config, t: Track, i: int) {
    && i in t.rows && i in t.base && i in t.exec && i in t.lead
    && (i - 1 in t.rows ==> t.rows[i].parentHash == t.rows[i - 1].hash)
    && Faithful(cfg, t.base[i], t.rows[i], t.exec[i])
    && t.lead[i] >= 0.0
    && Follows(cfg, t, i - 1, t.base[i], t.lead[i])
  }

  /** The record has an entry for each of the rows 1..n, and no row above. */
  ghost predicate Keyed(t: Track, n: int) {
    && n >= 0
    && (forall k :: (k in t.base <==> 1 <= k <= n) && (k in t.exec <==> 1 <= k <= n) && (k in t.lead <==> 1 <= k <= n))
    && (forall k :: 1 <= k <= n ==> k in t.rows)
    && (forall k :: k in t.rows ==> t.rows[k].height == k && 0 <= k <= n)
  }

  /** Every row of the table is on record, and the last one on record is in the table. */
  ghost predicate Covers(t: Track, blocks: Store, n: int) {
    && (forall k :: k in blocks ==> k in t.rows && t.rows[k] == blocks[k])
    && (n in t.rows ==> n in blocks)
  }

  ghost predicate Tracked(cfg: Config, ch: ChainState, t: Track) {
    var n := Tip(ch.blocks);
    && Table(ch.blocks) && Keyed(t, n) && Covers(t, ch.blocks, n)
    && (forall i :: 1 <= i <= n ==> RowOk(cfg, t, i))
    && t.now >= 0.0
    && Follows(cfg, t, n, ch.accounts, t.now)
  }

  /** The two records are the same up to height `i`, but for a genesis row that the second one may lack. */
  ghost predicate SameUpto(t: Track, u: Track, i: int) {
    && (0 in u.rows ==> 0 in t.rows && t.rows[0] == u.rows[0])
    && (forall k :: k < 0 ==> k !in u.rows)
    && forall k :: 1 <= k <= i ==>
      && (k in t.rows <==> k in u.rows) && (k in t.rows ==> t.rows[k] == u.rows[k])
      && (k in t.base <==> k in u.base) && (k in t.base ==> t.base[k] == u.base[k])
      && (k in t.exec <==> k in u.exec) && (k in t.exec ==> t.exec[k] == u.exec[k])
      && (k in t.lead <==> k in u.lead) && (k in t.lead ==> t.lead[k] == u.lead[k])
  }

  lemma FollowsFrame(cfg: Config, t: Track, u: Track, i: int, accounts: Accounts, lead: real)
    requires SameUpto(t, u, i) && i >= 0 && 0 !in t.exec && Follows(cfg, t, i, accounts, lead)
    ensures Follows(cfg, u, i, accounts, lead)
  {
    hide ExecBlock, Credited;
    StateAtPrefix(cfg.rates, LiveAlloc(cfg), t.rows, u.rows, i);
  }

  lemma RowFrame(cfg: Config, t: Track, u: Track, i: int)
    requires SameUpto(t, u, i) && i >= 1 && 0 !in t.exec && RowOk(cfg, t, i)
    ensures RowOk(cfg, u, i)
  {
    hide Faithful, Follows;
    assert SameUpto(t, u, i - 1);
    FollowsFrame(cfg, t, u, i - 1, t.base[i], t.lead[i]);
  }

  lemma SameLower(t: Track, u: Track, n: int, i: int)
    requires SameUpto(t, u, n) && i <= n
    ensures SameUpto(t, u, i)
  {
  }

  lemma GenesisIsTracked(cfg: Config, genesis: Block, slashing: Option<Slashing.State>)
    ensures var start := Genesis(cfg, genesis, slashing);
            Tracked(cfg, start, TrackStart(start))
  {
    assert Tip(Genesis(cfg, genesis, slashing).blocks) == 0;
  }

  // ----- adding a row -----

  lemma TipOfPut(blocks: Store, row: Block)
    requires forall k :: k in blocks ==> k <= row.height
    ensures Tip(Put(blocks, row)) == row.height
  {
    hide Tip;
    var r := Put(blocks, row);
    assert row.height in r && r != map[];
    assert forall k :: k in r ==> k <= row.height;
  }

  lemma KeyedOnTop(rates: Rates, t: Track, row: Block, before: Accounts, after: Accounts)
    requires Keyed(t, row.height - 1)
    ensures Keyed(TrackRow(rates, t, row, before, after), row.height)
    ensures TrackRow(rates, t, row, before, after).now == t.now + BurnCredit(rates, row)
  {
  }

  lemma CoversOnTop(rates: Rates, t: Track, blocks: Store, row: Block, before: Accounts, after: Accounts)
    requires Covers(t, blocks, row.height - 1)
    ensures Covers(TrackRow(rates, t, row, before, after), Put(blocks, row), row.height)
  {
  }

  lemma SameBelowRow(rates: Rates, t: Track, row: Block, before: Accounts, after: Accounts)
    requires Keyed(t, row.height - 1)
    ensures SameUpto(t, TrackRow(rates, t, row, before, after), row.height - 1)
  {
  }

  lemma RowOnTop(cfg: Config, t: Track, row: Block, before: Accounts, after: Accounts)
    requires Keyed(t, row.height - 1) && t.now >= 0.0
    requires row.height - 1 in t.rows ==> row.parentHash == t.rows[row.height - 1].hash
    requires Faithful(cfg, before, row, after) && Follows(cfg, t, row.height - 1, before, t.now)
    ensures var u := TrackRow(cfg.rates, t, row, before, after);
            RowOk(cfg, u, row.height) && Follows(cfg, u, row.height, Credited(cfg.rates, after, row), u.now)
  {
    hide Faithful, Credited, Fold, SameUpto, Keyed;
    var u := TrackRow(cfg.rates, t, row, before, after);
    KeyedFacts(t, row.height - 1);
    SameBelowRow(cfg.rates, t, row, before, after);
    FollowsFrame(cfg, t, u, row.height - 1, before, t.now);
  }

  lemma RowKeepsTracked(cfg: Config, ch: ChainState, t: Track, row: Block, after: Accounts, r: ChainState)
    requires Tracked(cfg, ch, t) && row.height == Tip(ch.blocks) + 1
    requires ch.blocks != map[] ==> row.parentHash == ch.blocks[Tip(ch.blocks)].hash
    requires Faithful(cfg, ch.accounts, row, after)
    requires r.accounts == Credited(cfg.rates, after, row) && r.blocks == Put(ch.blocks, row)
    ensures Tracked(cfg, r, TrackRow(cfg.rates, t, row, ch.accounts, after))
  {
    hide Faithful, Credited, Put, Follows, RowOk, SameUpto, Table, TrackRow, Keyed;
    var u := TrackRow(cfg.rates, t, row, ch.accounts, after);
    var n := Tip(ch.blocks);
    KeyedFacts(t, n);
    TipOfPut(ch.blocks, row);
    PutKeepsTable(ch.blocks, row);
    KeyedOnTop(cfg.rates, t, row, ch.accounts, after);
    CoversOnTop(cfg.rates, t, ch.blocks, row, ch.accounts, after);
    SameBelowRow(cfg.rates, t, row, ch.accounts, after);
    RowOnTop(cfg, t, row, ch.accounts, after);
    forall i | 1 <= i <= n ensures RowOk(cfg, u, i) {
      SameLower(t, u, n, i);
      RowFrame(cfg, t, u, i);
    }
  }

  lemma KeyedFacts(t: Track, n: int)
    requires Keyed(t, n)
    ensures n >= 0 && 0 !in t.exec && 0 !in t.lead
  {
  }

  lemma AddKeepsTracked(cfg: Config, ch: ChainState, t: Track, b: Block, preserve: bool, authorized: bool)
    requires Tracked(cfg, ch, t) && AddBlock(cfg, ch, b, preserve, authorized).ok && b.height != 0
    ensures ExecBlock(cfg.rates, ch.accounts, b).Executed?
    ensures Tracked(cfg, AddBlock(cfg, ch, b, preserve, authorized).ch,
                    TrackRow(cfg.rates, t, RowOf(cfg, ch, b, preserve), ch.accounts,
                             ExecBlock(cfg.rates, ch.accounts, b).accounts))
  {
    hide ExecBlock, AddBlock, RowOf, Faithful, Credited, Put, Tracked;
    AddedIs(cfg, ch, b, preserve, authorized);
    TopRow(cfg, ch, t);
    RowKeepsTracked(cfg, ch, t, RowOf(cfg, ch, b, preserve), ExecBlock(cfg.rates, ch.accounts, b).accounts,
                    AddBlock(cfg, ch, b, preserve, authorized).ch);
  }

  lemma TopRow(cfg: Config, ch: ChainState, t: Track)
    requires Tracked(cfg, ch, t)
    ensures ch.blocks == map[] ==> Tip(ch.blocks) == 0
    ensures ch.blocks != map[] ==> ch.blocks[Tip(ch.blocks)].height == Tip(ch.blocks)
  {
    hide Follows, RowOk;
  }

  // ----- replaying -----

  lemma {:induction false} FoldNeedsRows(rates: Rates, start: Accounts, blocks: Store, h: int, k: int)
    requires StateAt(rates, start, blocks, h).Some? && 1 <= k <= h
    ensures k in blocks
    decreases h - k
  {
    hide ExecBlock;
    if k < h { FoldNeedsRows(rates, start, blocks, h - 1, k); }
  }

  /** The height of the table after a replay to `h`: nothing is left below genesis. */
  function Landed(h: int): nat {
    if h < 0 then 0 else h
  }

  lemma CutTable(blocks: Store, h: int)
    requires Table(blocks) && forall k :: 1 <= k <= h ==> k in blocks
    ensures Table(Below(blocks, h)) && Tip(Below(blocks, h)) == Landed(h)
  {
    hide Tip;
    var cut := Below(blocks, h);
    assert forall k :: k in cut ==> 0 <= k <= h;
    if h >= 1 { assert h in cut; }
    assert cut == map[] || Tip(cut) in cut;
  }

  lemma CutTrack(blocks: Store, t: Track, n: int, h: int)
    requires Table(blocks) && Keyed(t, n) && Covers(t, blocks, n) && h <= n
    requires forall k :: 1 <= k <= h ==> k in blocks
    ensures var u := TrackReplay(blocks, t, h);
            Keyed(u, Landed(h)) && Covers(u, Below(blocks, h), Landed(h))
  {
  }

  lemma SameAfterCut(blocks: Store, t: Track, n: int, h: int)
    requires Table(blocks) && Covers(t, blocks, n) && forall k :: 1 <= k <= h ==> k in blocks
    ensures SameUpto(t, TrackReplay(blocks, t, h), h)
  {
  }

  lemma ReplayKeepsTracked(cfg: Config, ch: ChainState, t: Track, h: int, replayed: Accounts)
    requires Tracked(cfg, ch, t) && h <= Tip(ch.blocks) && Fold(cfg, ch.blocks, h) == Some(replayed)
    ensures Tracked(cfg, ch.(accounts := replayed, blocks := Below(ch.blocks, h)), TrackReplay(ch.blocks, t, h))
  {
    hide Follows, RowOk, StateAt, SameUpto, Table, Keyed, Covers;
    var u := TrackReplay(ch.blocks, t, h);
    var n := Tip(ch.blocks);
    KeyedFacts(t, n);
    forall k | 1 <= k <= h ensures k in ch.blocks { FoldNeedsRows(cfg.rates, LiveAlloc(cfg), ch.blocks, h, k); }
    CutTable(ch.blocks, h);
    CutTrack(ch.blocks, t, n, h);
    SameAfterCut(ch.blocks, t, n, h);
    forall i | 1 <= i <= h ensures RowOk(cfg, u, i) {
      SameLower(t, u, h, i);
      RowFrame(cfg, t, u, i);
    }
    FoldOfCut(cfg, ch.blocks, h);
    FollowsReplay(cfg, u, Landed(h), replayed);
  }

  lemma FoldOfCut(cfg: Config, blocks: Store, h: int)
    ensures Fold(cfg, Below(blocks, h), Landed(h)) == Fold(cfg, blocks, h)
  {
    hide ExecBlock;
    StateAtPrefix(cfg.rates, LiveAlloc(cfg), blocks, Below(blocks, h), h);
  }

  lemma FollowsReplay(cfg: Config, t: Track, h: int, replayed: Accounts)
    requires Fold(cfg, t.rows, h) == Some(replayed)
    ensures Follows(cfg, t, h, replayed, 0.0)
  {
  }

  lemma ReorgIsReplay(cfg: Config, ch: ChainState, h: int, floor: int)
    requires AllocsAgree(cfg) && ReorgTo(cfg, ch, h, floor).ok && h <= Tip(ch.blocks)
    ensures Fold(cfg, ch.blocks, h).Some?
    ensures ReorgTo(cfg, ch, h, floor).ch == ch.(accounts := Fold(cfg, ch.blocks, h).value, blocks := Below(ch.blocks, h))
  {
    hide StateAt;
  }

  lemma NoReplay(cfg: Config, ch: ChainState, h: int, floor: int)
    requires !(ReorgTo(cfg, ch, h, floor).ok && h <= Tip(ch.blocks))
    ensures ReorgTo(cfg, ch, h, floor).ch == ch
  {
    hide StateAt;
  }

  // ----- runs -----

  /** The one thing a run may not contain: a second block for height 0, which only an emptied table takes. */
  predicate Regular(e: Event) {
    e.Add? ==> e.b.height != 0
  }

  predicate RegularRun(events: seq<Event>) {
    forall i :: 0 <= i < |events| ==> Regular(events[i])
  }

  /**
   Why: on an emptied table a block for height 0 is accepted and executed, but replay starts with
   row 1 and never sees what it paid.
   */
  lemma SecondGenesisIsNotReplayed(cfg: Config, ch: ChainState, b: Block)
    requires ch.blocks == map[] && ch.accounts == LiveAlloc(cfg) && NonNegative(ch.accounts)
    requires b.height == 0 && b.miner == "" && b.txs == [] && Reward(cfg.rates, ch.accounts) > 0.0
    ensures var r := AddBlock(cfg, ch, b, false, true);
            r.ok && Tip(r.ch.blocks) == 0 && Fold(cfg, r.ch.blocks, 0) != Some(r.ch.accounts)
  {
    hide Total, Reward;
    assert ApplyTxs(cfg.rates, ch.accounts, [], 0, "") == Executed(ch.accounts, []);
    AddedIs(cfg, ch, b, false, true);
    var row := RowOf(cfg, ch, b, false);
    TipOfPut(ch.blocks, row);
    DeltaAt(ch.accounts, "", Reward(cfg.rates, ch.accounts), "");
    assert BurnCredit(cfg.rates, row) == 0.0;
  }

  lemma StepKeepsTracked(cfg: Config, ch: ChainState, t: Track, e: Event)
    requires Tracked(cfg, ch, t) && AllocsAgree(cfg) && Regular(e)
    ensures Tracked(cfg, Apply(cfg, ch, e).ch, TrackStep(cfg, ch, t, e))
  {
    hide AddBlock, ReorgTo, ExecBlock, RowOf, TrackRow, TrackReplay, RowOk, Follows, Fold, Keyed, Covers;
    if e.Add? {
      if AddBlock(cfg, ch, e.b, e.preserve, e.authorized).ok {
        AddKeepsTracked(cfg, ch, t, e.b, e.preserve, e.authorized);
      } else {
        RefusedAddChangesNoTable(cfg, ch, e.b, e.preserve, e.authorized);
      }
    } else if ReplaysTo(cfg, ch, e).Some? {
      var h, floor := ReplaysTo(cfg, ch, e).value, e.floor;
      ReorgIsReplay(cfg, ch, h, floor);
      ReplayKeepsTracked(cfg, ch, t, h, Fold(cfg, ch.blocks, h).value);
    } else if e.Reorg? {
      NoReplay(cfg, ch, e.h, e.floor);
    } else if e.EnsureTip? && Tip(ch.blocks) > 0 && ch.blocks[Tip(ch.blocks)].stateRoot != ""
              && ch.blocks[Tip(ch.blocks)].stateRoot != cfg.root(ch.accounts) {
      NoReplay(cfg, ch, Tip(ch.blocks), e.floor);
    }
  }

  /** The record describes every run from genesis, erased rows and emptied tables included. */
  lemma {:induction false} RunKeepsTracked(cfg: Config, genesis: Block, slashing: Option<Slashing.State>, events: seq<Event>)
    requires AllocsAgree(cfg) && RegularRun(events)
    ensures var start := Genesis(cfg, genesis, slashing);
            Tracked(cfg, Run(cfg, start, events), TrackRun(cfg, start, events))
  {
    hide Tracked, Apply, TrackStep, Regular;
    if events == [] {
      GenesisIsTracked(cfg, genesis, slashing);
    } else {
      var start, last := Genesis(cfg, genesis, slashing), |events| - 1;
      RunKeepsTracked(cfg, genesis, slashing, events[..last]);
      StepKeepsTracked(cfg, Run(cfg, start, events[..last]), TrackRun(cfg, start, events[..last]), events[last]);
    }
  }

  // ----- no lead: the replay agrees -----

  /** A row without lead was executed on the replay, and its result is the replay. */
  lemma {:induction false} NoLeadIsFold(cfg: Config, ch: ChainState, t: Track, i: int)
    requires Tracked(cfg, ch, t) && 1 <= i <= Tip(ch.blocks) && t.lead[i] == 0.0
    ensures Fold(cfg, t.rows, i - 1) == Some(t.base[i]) && Fold(cfg, t.rows, i) == Some(t.exec[i])
    decreases i
  {
    hide ExecBlock, Tip, Covers, Table;
    assert RowOk(cfg, t, i);
    if i > 1 && t.lead[i - 1] + BurnCredit(cfg.rates, t.rows[i - 1]) == 0.0 {
      assert RowOk(cfg, t, i - 1);
      NoLeadIsFold(cfg, ch, t, i - 1);
      CreditIsVisible(cfg.rates, t.exec[i - 1], t.rows[i - 1]);
    }
  }

  /** Live accounts without lead are the replay of the whole chain. */
  lemma NoLeadLiveIsFold(cfg: Config, ch: ChainState, t: Track)
    requires Tracked(cfg, ch, t) && t.now == 0.0
    ensures Fold(cfg, t.rows, Tip(ch.blocks)) == Some(ch.accounts)
  {
    hide ExecBlock, Credited, StateAt, Covers, Table;
    var n := Tip(ch.blocks);
    if n >= 1 && t.lead[n] + BurnCredit(cfg.rates, t.rows[n]) == 0.0 {
      assert RowOk(cfg, t, n);
      NoLeadIsFold(cfg, ch, t, n);
      CreditIsVisible(cfg.rates, t.exec[n], t.rows[n]);
    }
  }

  /** Without a burn address there is never a lead. */
  lemma {:induction false} NoBurnAddressNoLead(cfg: Config, ch: ChainState, t: Track, i: int)
    requires Tracked(cfg, ch, t) && cfg.rates.burnAddress == "" && 1 <= i <= Tip(ch.blocks)
    ensures i in t.lead && t.lead[i] == 0.0
    decreases i
  {
    hide ExecBlock, Credited, StateAt, Covers, Table, Tip, Faithful;
    assert RowOk(cfg, t, i);
    if i > 1 { NoBurnAddressNoLead(cfg, ch, t, i - 1); }
  }

  lemma NoBurnAddressNoLiveLead(cfg: Config, ch: ChainState, t: Track)
    requires Tracked(cfg, ch, t) && cfg.rates.burnAddress == ""
    ensures t.now == 0.0
  {
    hide ExecBlock, Credited, StateAt, Covers, Table, RowOk;
    if Tip(ch.blocks) >= 1 { NoBurnAddressNoLead(cfg, ch, t, Tip(ch.blocks)); }
  }

  // ----- complete tables -----

  /** No row of the chain is missing from the table. */
  ghost predicate Whole(ch: ChainState, t: Track) {
    ch.blocks == t.rows && 0 in ch.blocks
  }

  /** Rollbacks to heights from 0 and blocks with hashes that are not stored. */
  ghost predicate Quiet(cfg: Config, ch: ChainState, e: Event) {
    (e.Reorg? ==> e.h >= 0) && !Erases(cfg, ch, e, Tip(ch.blocks))
  }

  ghost predicate QuietRun(cfg: Config, ch: ChainState, events: seq<Event>) {
    forall i :: 0 <= i < |events| ==> Quiet(cfg, Run(cfg, ch, events[..i]), events[i])
  }

  lemma StepStaysWhole(cfg: Config, ch: ChainState, t: Track, e: Event)
    requires Whole(ch, t) && Quiet(cfg, ch, e) && AllocsAgree(cfg)
    ensures Whole(Apply(cfg, ch, e).ch, TrackStep(cfg, ch, t, e))
  {
    hide AddBlock, ReorgTo, ExecBlock, RowOf, Fold, Faithful, Credited, Fits;
    if e.Add? {
      if AddBlock(cfg, ch, e.b, e.preserve, e.authorized).ok {
        AddedIs(cfg, ch, e.b, e.preserve, e.authorized);
        var row := RowOf(cfg, ch, e.b, e.preserve);
        assert forall k :: k in ch.blocks ==> ch.blocks[k].hash != row.hash;
        assert Put(ch.blocks, row) == ch.blocks[row.height := row];
      } else {
        RefusedAddChangesNoTable(cfg, ch, e.b, e.preserve, e.authorized);
      }
    } else if ReplaysTo(cfg, ch, e).Some? {
      ReorgIsReplay(cfg, ch, ReplaysTo(cfg, ch, e).value, e.floor);
    } else if e.Reorg? {
      NoReplay(cfg, ch, e.h, e.floor);
    } else if e.EnsureTip? && Tip(ch.blocks) > 0 && ch.blocks[Tip(ch.blocks)].stateRoot != ""
              && ch.blocks[Tip(ch.blocks)].stateRoot != cfg.root(ch.accounts) {
      NoReplay(cfg, ch, Tip(ch.blocks), e.floor);
    }
  }

  /** Quiet runs lose no row. */
  lemma {:induction false} RunStaysWhole(cfg: Config, genesis: Block, slashing: Option<Slashing.State>, events: seq<Event>)
    requires AllocsAgree(cfg) && QuietRun(cfg, Genesis(cfg, genesis, slashing), events)
    ensures var start := Genesis(cfg, genesis, slashing);
            Whole(Run(cfg, start, events), TrackRun(cfg, start, events))
  {
    hide Apply, TrackStep, Quiet;
    if events != [] {
      var start, last := Genesis(cfg, genesis, slashing), |events| - 1;
      forall i | 0 <= i < last ensures Quiet(cfg, Run(cfg, start, events[..last][..i]), events[..last][i]) {
        assert events[..last][..i] == events[..i];
      }
      RunStaysWhole(cfg, genesis, slashing, events[..last]);
      StepStaysWhole(cfg, Run(cfg, start, events[..last]), TrackRun(cfg, start, events[..last]), events[last]);
    }
  }
}
