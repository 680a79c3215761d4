/**
 Undoing a rollback: importing the dropped blocks again, without a slashing engine. The chain
 comes back as it was exactly when no replay had come between its blocks since that height.
 */
module ChainReimport {
  import opened Wrappers
  import opened Ledger
  import opened Chain
  import opened ChainRuns
  import opened ChainDrift
  import opened ChainRollback

  /** Imports the stored rows h+1..k one after the other; stops at the first that is refused. */
  ghost function Import(cfg: Config, ch: ChainState, rows: Store, h: int, k: int): (r: Response)
    requires forall i :: h < i <= k ==> i in rows
    decreases k - h
  {
    if k <= h then Response(ch, true)
    else
      var r := Import(cfg, ch, rows, h, k - 1);
      if r.ok then AddBlock(cfg, r.ch, rows[k], true, true) else r
  }

  /** The state right after a successful rollback to height `h`. */
  ghost function RolledBack(ch: ChainState, h: int, accounts: Accounts): ChainState {
    ch.(accounts := accounts, blocks := Below(ch.blocks, h))
  }

  /** The burned totals credited by the rows h+1..i. */
  ghost function Credits(rates: Rates, rows: Store, h: int, i: int): real
    decreases i - h
  {
    if i <= h then 0.0
    else Credits(rates, rows, h, i - 1) + (if i in rows then BurnCredit(rates, rows[i]) else 0.0)
  }

  /** Every row above `h`, and the live accounts, lead by what the rows in between credited. */
  ghost predicate Uninterrupted(rates: Rates, ch: ChainState, t: Track, h: int) {
    && (forall i :: h < i && i in t.lead ==> t.lead[i] == Credits(rates, ch.blocks, h, i - 1))
    && t.now == Credits(rates, ch.blocks, h, Tip(ch.blocks))
  }

  /** The accounts on which row `k` is executed again: the replay of `h`, then what row k - 1 left. */
  ghost function Before(cfg: Config, ch: ChainState, t: Track, h: int, start: Accounts, k: int): Accounts
    requires k - 1 in ch.blocks && (k - 1 > h ==> k - 1 in t.exec)
  {
    if k - 1 <= h then start else Credited(cfg.rates, t.exec[k - 1], ch.blocks[k - 1])
  }

  lemma {:induction false} CreditsAreNonNegative(rates: Rates, rows: Store, h: int, i: int)
    ensures Credits(rates, rows, h, i) >= 0.0
    decreases i - h
  {
    if i > h { CreditsAreNonNegative(rates, rows, h, i - 1); }
  }

  /** In an uninterrupted stretch each row was executed on what the row below left. */
  lemma BaseIsBefore(cfg: Config, ch: ChainState, t: Track, h: int, start: Accounts, k: int)
    requires Tracked(cfg, ch, t) && Whole(ch, t) && 0 <= h < k <= Tip(ch.blocks) && Fold(cfg, t.rows, h) == Some(start)
    requires Uninterrupted(cfg.rates, ch, t, h)
    ensures k in t.base && k - 1 in ch.blocks && (k - 1 > h ==> k - 1 in t.exec)
    ensures t.base[k] == Before(cfg, ch, t, h, start, k)
  {
    hide ExecBlock, Credited, Table, StateAt, BurnCredit, Tip;
    assert RowOk(cfg, t, k);
    CreditsAreNonNegative(cfg.rates, ch.blocks, h, k - 2);
    if k - 1 >= 1 && t.lead[k - 1] + BurnCredit(cfg.rates, ch.blocks[k - 1]) == 0.0 {
      assert RowOk(cfg, t, k - 1);
      NoLeadIsFold(cfg, ch, t, k - 1);
      CreditIsVisible(cfg.rates, t.exec[k - 1], ch.blocks[k - 1]);
    }
  }

  lemma LiveIsBefore(cfg: Config, ch: ChainState, t: Track, h: int, start: Accounts)
    requires Tracked(cfg, ch, t) && Whole(ch, t) && 0 <= h <= Tip(ch.blocks) && Fold(cfg, t.rows, h) == Some(start)
    requires Uninterrupted(cfg.rates, ch, t, h)
    ensures var n := Tip(ch.blocks);
            n in ch.blocks && (n > h ==> n in t.exec) && ch.accounts == Before(cfg, ch, t, h, start, n + 1)
  {
    hide ExecBlock, Credited, Table, StateAt, BurnCredit;
    var n := Tip(ch.blocks);
    CreditsAreNonNegative(cfg.rates, ch.blocks, h, n - 1);
    if n >= 1 && t.lead[n] + BurnCredit(cfg.rates, ch.blocks[n]) == 0.0 {
      assert RowOk(cfg, t, n);
      NoLeadIsFold(cfg, ch, t, n);
      CreditIsVisible(cfg.rates, t.exec[n], ch.blocks[n]);
    }
  }

  lemma SealingAgainChangesNothing(cfg: Config, before: Accounts, b: Block, after: Accounts)
    requires Faithful(cfg, before, b, after)
    ensures Sealed(cfg, b, after, b.txs, true) == b
  {
    hide ExecBlock;
  }

  lemma WholeIsContiguous(cfg: Config, ch: ChainState, t: Track)
    requires Tracked(cfg, ch, t) && Whole(ch, t)
    ensures Contiguous(ch.blocks, Tip(ch.blocks))
  {
    hide RowOk, Follows, Covers, Table;
  }

  lemma RowRoot(cfg: Config, t: Track, i: int)
    requires RowOk(cfg, t, i)
    ensures t.rows[i].stateRoot == cfg.root(t.exec[i])
  {
    hide Follows;
  }

  lemma CutOnTop(blocks: Store, k: int)
    requires Table(blocks) && Contiguous(blocks, Tip(blocks)) && 1 <= k <= Tip(blocks)
    ensures var cut := Below(blocks, k - 1);
            && Tip(cut) == k - 1 && cut != map[] && k - 1 in cut && k !in cut
            && Put(cut, blocks[k]) == Below(blocks, k)
  {
    assert forall i :: 1 <= i <= k - 1 ==> i in blocks;
    CutTable(blocks, k - 1);
    hide Tip;
    assert k - 1 in blocks && k - 1 in Below(blocks, k - 1);
    PutBack(blocks, k);
  }

  lemma PutBack(blocks: Store, k: int)
    requires Table(blocks) && k in blocks
    ensures Put(Below(blocks, k - 1), blocks[k]) == Below(blocks, k)
  {
    var cut := Below(blocks, k - 1);
    assert forall i :: i in cut ==> i in blocks && i != k && cut[i].hash != blocks[k].hash;
  }

  /** Importing a row on the accounts it was executed on stores the same row and leaves its accounts. */
  lemma ReimportRow(cfg: Config, ch: ChainState, t: Track, k: int)
    requires Tracked(cfg, ch, t) && Whole(ch, t) && 1 <= k <= Tip(ch.blocks) && ch.slashing.None?
    ensures k in t.base && k in t.exec && k in ch.blocks
    ensures AddBlock(cfg, RolledBack(ch, k - 1, t.base[k]), ch.blocks[k], true, true)
            == Response(RolledBack(ch, k, Credited(cfg.rates, t.exec[k], ch.blocks[k])), true)
  {
    hide ExecBlock, Credited, Put, Below, Follows, Sealed, Tip;
    assert RowOk(cfg, t, k);
    WholeIsContiguous(cfg, ch, t);
    CutOnTop(ch.blocks, k);
    BelowHas(ch.blocks, k - 1);
    SealingAgainChangesNothing(cfg, t.base[k], ch.blocks[k], t.exec[k]);
  }

  lemma BelowHas(blocks: Store, h: int)
    ensures h in blocks ==> h in Below(blocks, h) && Below(blocks, h)[h] == blocks[h]
  {
  }

  lemma {:induction false} ImportUninterrupted(cfg: Config, ch: ChainState, t: Track, h: int, start: Accounts, k: int)
    requires Tracked(cfg, ch, t) && Whole(ch, t) && 0 <= h <= k <= Tip(ch.blocks) && Fold(cfg, t.rows, h) == Some(start)
    requires Uninterrupted(cfg.rates, ch, t, h) && ch.slashing.None?
    ensures k in ch.blocks && (k > h ==> k in t.exec)
    ensures forall i :: h < i <= k ==> i in ch.blocks
    ensures Import(cfg, RolledBack(ch, h, start), ch.blocks, h, k)
            == Response(RolledBack(ch, k, Before(cfg, ch, t, h, start, k + 1)), true)
    decreases k
  {
    hide AddBlock, Uninterrupted, Credited, Below, Table, RowOk, Follows, StateAt;
    if k > h {
      ImportUninterrupted(cfg, ch, t, h, start, k - 1);
      BaseIsBefore(cfg, ch, t, h, start, k);
      ReimportRow(cfg, ch, t, k);
    }
  }

  /**
   If nothing interrupted the stretch above `h`, rolling back to `h` and importing the dropped
   blocks restores exactly the blocks and accounts before the rollback.
   */
  lemma ReimportRestores(cfg: Config, ch: ChainState, t: Track, h: int, start: Accounts)
    requires Tracked(cfg, ch, t) && Whole(ch, t) && 0 <= h <= Tip(ch.blocks) && Fold(cfg, t.rows, h) == Some(start)
    requires Uninterrupted(cfg.rates, ch, t, h) && ch.slashing.None?
    ensures forall i :: h < i <= Tip(ch.blocks) ==> i in ch.blocks
    ensures Import(cfg, RolledBack(ch, h, start), ch.blocks, h, Tip(ch.blocks)) == Response(ch, true)
  {
    hide Import, Uninterrupted, Credited, RowOk, Follows, StateAt;
    var n := Tip(ch.blocks);
    ImportUninterrupted(cfg, ch, t, h, start, n);
    LiveIsBefore(cfg, ch, t, h, start);
    assert Below(ch.blocks, n) == ch.blocks;
  }

  // ----- the other direction -----

  /** The accounts after executing row `k` again, if the import gets that far. */
  ghost function Again(cfg: Config, ch: ChainState, rows: Store, h: int, k: int): Option<Accounts>
    requires forall i :: h < i <= k ==> i in rows
  {
    var r := Import(cfg, ch, rows, h, k - 1);
    if h < k && r.ok && ExecBlock(cfg.rates, r.ch.accounts, rows[k]).Executed?
    then Some(ExecBlock(cfg.rates, r.ch.accounts, rows[k]).accounts) else None
  }

  /** The root tells the accounts of a row executed again from those it was executed to first. */
  ghost predicate RootTellsAgain(cfg: Config, ch: ChainState, t: Track, h: int, start: Accounts, k: int)
    requires forall i :: h < i <= k ==> i in ch.blocks
  {
    var x := Again(cfg, RolledBack(ch, h, start), ch.blocks, h, k);
    k in t.exec && x.Some? ==> Separates(cfg, x.value, t.exec[k])
  }

  lemma {:induction false} ImportsSucceedBelow(cfg: Config, ch: ChainState, rows: Store, h: int, k: int, n: int)
    requires (forall i :: h < i <= n ==> i in rows) && k <= n && Import(cfg, ch, rows, h, n).ok
    ensures Import(cfg, ch, rows, h, k).ok
    decreases n - k
  {
    hide AddBlock;
    if k < n { ImportsSucceedBelow(cfg, ch, rows, h, k, n - 1); }
  }

  /** What the completed import holds at height `k` is the row stored when `k` was imported. */
  lemma {:induction false} ImportedRow(cfg: Config, ch: ChainState, rows: Store, h: int, k: int, n: int)
    requires (forall i :: h < i <= n ==> i in rows && rows[i].height == i) && h < k <= n
    requires Import(cfg, ch, rows, h, n).ok && k in Import(cfg, ch, rows, h, n).ch.blocks
    ensures var r := Import(cfg, ch, rows, h, k - 1);
            && r.ok && ExecBlock(cfg.rates, r.ch.accounts, rows[k]).Executed?
            && Import(cfg, ch, rows, h, n).ch.blocks[k] == RowOf(cfg, r.ch, rows[k], true)
            && Import(cfg, ch, rows, h, k).ch.accounts
               == Credited(cfg.rates, ExecBlock(cfg.rates, r.ch.accounts, rows[k]).accounts, RowOf(cfg, r.ch, rows[k], true))
    decreases n - k
  {
    hide AddBlock, ExecBlock, RowOf, Credited, Faithful, Fits;
    ImportsSucceedBelow(cfg, ch, rows, h, n - 1, n);
    var r := Import(cfg, ch, rows, h, n - 1);
    AddedIs(cfg, r.ch, rows[n], true, true);
    if k < n { ImportedRow(cfg, ch, rows, h, k, n - 1); }
  }

  /** If the import restores the chain, every row is executed again to the accounts it had. */
  lemma AgainIsExec(cfg: Config, ch: ChainState, t: Track, h: int, start: Accounts, k: int)
    requires Tracked(cfg, ch, t) && Whole(ch, t) && 0 <= h < k <= Tip(ch.blocks)
    requires forall i :: h < i <= Tip(ch.blocks) ==> i in ch.blocks
    requires Import(cfg, RolledBack(ch, h, start), ch.blocks, h, Tip(ch.blocks)) == Response(ch, true)
    requires RootTellsAgain(cfg, ch, t, h, start, k)
    ensures var r := Import(cfg, RolledBack(ch, h, start), ch.blocks, h, k - 1);
            && r.ok && k in t.exec && ExecBlock(cfg.rates, r.ch.accounts, ch.blocks[k]).Executed?
            && ExecBlock(cfg.rates, r.ch.accounts, ch.blocks[k]).accounts == t.exec[k]
            && Import(cfg, RolledBack(ch, h, start), ch.blocks, h, k).ch.accounts
               == Credited(cfg.rates, t.exec[k], ch.blocks[k])
  {
    hide ExecBlock, Import, Credited, Follows, RolledBack;
    assert RowOk(cfg, t, k);
    RowRoot(cfg, t, k);
    ImportedRow(cfg, RolledBack(ch, h, start), ch.blocks, h, k, Tip(ch.blocks));
  }

  lemma ImportedAccounts(cfg: Config, ch: ChainState, t: Track, h: int, start: Accounts, k: int)
    requires 0 <= h <= k <= Tip(ch.blocks) && forall i :: h < i <= Tip(ch.blocks) ==> i in ch.blocks
    requires Import(cfg, RolledBack(ch, h, start), ch.blocks, h, Tip(ch.blocks)) == Response(ch, true)
    requires k > h ==> RootTellsAgain(cfg, ch, t, h, start, k)
    requires k in ch.blocks && (k > h ==> k in t.exec)
    requires Tracked(cfg, ch, t) && Whole(ch, t)
    ensures Import(cfg, RolledBack(ch, h, start), ch.blocks, h, k).ch.accounts == Before(cfg, ch, t, h, start, k + 1)
  {
    hide ExecBlock, AddBlock, Credited, Follows, RowOk;
    if k > h { AgainIsExec(cfg, ch, t, h, start, k); }
  }

  ghost function BurnBalance(cfg: Config, a: Accounts): real {
    Balance(a, cfg.rates.burnAddress)
  }

  lemma BeforeBalance(cfg: Config, ch: ChainState, t: Track, h: int, start: Accounts, i: int)
    requires Tracked(cfg, ch, t) && Whole(ch, t) && Orderly(cfg, t.rows) && 0 <= h <= i <= Tip(ch.blocks)
    requires Fold(cfg, t.rows, h) == Some(start)
    ensures i in ch.blocks && (i > h ==> i in t.exec) && NonNegative(Before(cfg, ch, t, h, start, i + 1))
    ensures i > h ==> BurnBalance(cfg, Before(cfg, ch, t, h, start, i + 1))
                      == BurnBalance(cfg, t.exec[i]) + BurnCredit(cfg.rates, ch.blocks[i])
  {
    hide ExecBlock, Credited, StateAt, NonNegative, Balance, BurnCredit, RowOk, Follows, OrderlyBlock;
    if i > h {
      RowsAreNonNegative(cfg, ch, t, i);
      CreditMovesGap(cfg.rates, t.exec[i], ch.blocks[i]);
    } else {
      FoldIsNonNegative(cfg, t.rows, h);
    }
  }

  /** Accounts that follow row `i` with the same burn balance as the import's lead by the same credits. */
  lemma LeadIsCredits(cfg: Config, ch: ChainState, t: Track, h: int, start: Accounts, i: int, accounts: Accounts, lead: real)
    requires Tracked(cfg, ch, t) && Whole(ch, t) && Orderly(cfg, t.rows) && 0 <= h <= i <= Tip(ch.blocks)
    requires Fold(cfg, t.rows, h) == Some(start) && Follows(cfg, t, i, accounts, lead)
    requires i in ch.blocks && (i > h ==> i in t.exec && i in t.lead && t.lead[i] == Credits(cfg.rates, ch.blocks, h, i - 1))
    requires BurnBalance(cfg, accounts) == BurnBalance(cfg, Before(cfg, ch, t, h, start, i + 1))
    ensures lead == Credits(cfg.rates, ch.blocks, h, i)
  {
    hide ExecBlock, Credited, StateAt, NonNegative, Balance, BurnCredit, OrderlyBlock, Table, Tip;
    BeforeBalance(cfg, ch, t, h, start, i);
    if i >= 1 {
      assert RowOk(cfg, t, i);
      RowsAreNonNegative(cfg, ch, t, i);
      CreditMovesGap(cfg.rates, t.exec[i], ch.blocks[i]);
      if Fold(cfg, t.rows, i).Some? { LeadIsGap(cfg, ch, t, i); }
    }
  }

  lemma {:induction false} RestoredLead(cfg: Config, ch: ChainState, t: Track, h: int, start: Accounts, k: int)
    requires Tracked(cfg, ch, t) && Whole(ch, t) && Orderly(cfg, t.rows) && 0 <= h < k <= Tip(ch.blocks)
    requires Fold(cfg, t.rows, h) == Some(start)
    requires forall i :: h < i <= Tip(ch.blocks) ==> i in ch.blocks
    requires Import(cfg, RolledBack(ch, h, start), ch.blocks, h, Tip(ch.blocks)) == Response(ch, true)
    requires forall i :: h < i <= Tip(ch.blocks) ==> RootTellsAgain(cfg, ch, t, h, start, i)
    ensures k in t.lead && t.lead[k] == Credits(cfg.rates, ch.blocks, h, k - 1)
    decreases k
  {
    hide ExecBlock, Import, Credits, Credited, StateAt, NonNegative, Balance, Follows, RootTellsAgain, Table, Tip, RolledBack;
    if k - 1 > h { RestoredLead(cfg, ch, t, h, start, k - 1); }
    assert RowOk(cfg, t, k);
    AgainIsExec(cfg, ch, t, h, start, k);
    ImportedAccounts(cfg, ch, t, h, start, k - 1);
    BeforeBalance(cfg, ch, t, h, start, k - 1);
    RowsAreNonNegative(cfg, ch, t, k);
    var again := Import(cfg, RolledBack(ch, h, start), ch.blocks, h, k - 1).ch.accounts;
    ExecKeepsGap(cfg.rates, again, t.base[k], ch.blocks[k]);
    LeadIsCredits(cfg, ch, t, h, start, k - 1, t.base[k], t.lead[k]);
  }

  /**
   Undoing a rollback: importing the dropped blocks restores blocks and accounts if every dropped
   row, and the live accounts, lead by what the rows since `h` credited, that is, no replay took a
   credit back in between; and only then, on an orderly chain whose roots tell the executions apart.
   */
  lemma ReimportRestoresIff(cfg: Config, ch: ChainState, t: Track, h: int, start: Accounts)
    requires Tracked(cfg, ch, t) && Whole(ch, t) && 0 <= h <= Tip(ch.blocks)
    requires Fold(cfg, t.rows, h) == Some(start) && ch.slashing.None?
    requires forall i :: h < i <= Tip(ch.blocks) ==> i in ch.blocks
    ensures Uninterrupted(cfg.rates, ch, t, h) ==>
              Import(cfg, RolledBack(ch, h, start), ch.blocks, h, Tip(ch.blocks)) == Response(ch, true)
    ensures Orderly(cfg, t.rows) && (forall i :: h < i <= Tip(ch.blocks) ==> RootTellsAgain(cfg, ch, t, h, start, i)) ==>
              (Import(cfg, RolledBack(ch, h, start), ch.blocks, h, Tip(ch.blocks)) == Response(ch, true)
               <==> Uninterrupted(cfg.rates, ch, t, h))
  {
    hide Import, Credits, StateAt, RootTellsAgain, RolledBack, Before, Orderly, Follows, RowOk;
    var n := Tip(ch.blocks);
    if Uninterrupted(cfg.rates, ch, t, h) {
      ReimportRestores(cfg, ch, t, h, start);
    } else if Import(cfg, RolledBack(ch, h, start), ch.blocks, h, n) == Response(ch, true) && Orderly(cfg, t.rows)
              && (forall i :: h < i <= n ==> RootTellsAgain(cfg, ch, t, h, start, i)) {
      forall i | h < i && i in t.lead ensures t.lead[i] == Credits(cfg.rates, ch.blocks, h, i - 1) {
        RestoredLead(cfg, ch, t, h, start, i);
      }
      ImportedAccounts(cfg, ch, t, h, start, n);
      LeadIsCredits(cfg, ch, t, h, start, n, ch.accounts, t.now);
    }
  }
}
