/**
 Account state of core/blockchain.py on the plain-transfer path: balances and nonces with
 the database's clamping balance update, transfers with fee and burn, the capped block
 reward, and what they do to the total supply.
 */
module Ledger {

  datatype Account = Account(balance: real, nonce: int)

  type Accounts = map<string, Account>

  /** The fields of a transaction that its sender fixes. */
  datatype TxCore = TxCore(sender: string, recipient: string, value: real, nonce: int, gas: int,
                           hash: string, payload: string)

  /** A transaction with the fields filled in when it is executed. */
  datatype Tx = Tx(core: TxCore, fee: real, burned: real, gasUsed: int, blockHeight: int)

  datatype Rates = Rates(
    gasPrice: real, burnRate: real, burnAddress: string, minerAddress: string,
    blockReward: real, maxSupply: real, baseGas: int,
    signatureOk: TxCore -> bool)

  ghost predicate Sane(rates: Rates) {
    rates.gasPrice >= 0.0 && 0.0 <= rates.burnRate <= 1.0 && rates.baseGas >= 0
  }

  // ----- the account table -----

  function Balance(accounts: Accounts, a: string): real {
    if a in accounts then accounts[a].balance else 0.0
  }

  function Nonce(accounts: Accounts, a: string): int {
    if a in accounts then accounts[a].nonce else 0
  }

  function Clamp(x: real): (r: real) {
    if x < 0.0 then 0.0 else x
  }

  /** `balance_delta`: an upsert that never leaves a negative balance. */
  function ApplyDelta(accounts: Accounts, a: string, delta: real): (r: Accounts) {
    accounts[a := Account(Clamp(Balance(accounts, a) + delta), Nonce(accounts, a))]
  }

  function BumpNonce(accounts: Accounts, a: string): (r: Accounts) {
    accounts[a := Account(Balance(accounts, a), Nonce(accounts, a) + 1)]
  }

  ghost predicate NonNegative(accounts: Accounts) {
    forall a :: a in accounts ==> accounts[a].balance >= 0.0
  }

  // ----- one transaction -----

  datatype TxError = NonceMismatch | InsufficientFunds | InvalidSignature

  datatype TxResult = Applied(accounts: Accounts, tx: Tx) | Refused(error: TxError)

  function Fee(rates: Rates, core: TxCore): real {
    core.gas as real * rates.gasPrice
  }

  function Burn(rates: Rates, core: TxCore): real {
    Fee(rates, core) * rates.burnRate
  }

  function Payee(rates: Rates, proposer: string): string {
    if proposer != "" then proposer else if rates.minerAddress != "" then rates.minerAddress else "genesis"
  }

  /** The sender is debited value and fee, the recipient credited the value. */
  function Move(accounts: Accounts, core: TxCore, fee: real): Accounts {
    ApplyDelta(ApplyDelta(accounts, core.sender, -(core.value + fee)), core.recipient, core.value)
  }

  /** The fee goes to the payee except for the burnt part; the sender's nonce goes up. */
  function Settle(rates: Rates, accounts: Accounts, sender: string, payee: string, fee: real, burn: real): Accounts {
    var paid := ApplyDelta(accounts, payee, fee - burn);
    var burned := if burn > 0.0 && rates.burnAddress != "" then ApplyDelta(paid, rates.burnAddress, burn) else paid;
    BumpNonce(burned, sender)
  }

  function Transfer(rates: Rates, accounts: Accounts, core: TxCore, payee: string): Accounts {
    Settle(rates, Move(accounts, core, Fee(rates, core)), core.sender, payee, Fee(rates, core), Burn(rates, core))
  }

  function Stamp(rates: Rates, tx: Tx, height: int): Tx {
    Tx(tx.core, Fee(rates, tx.core), Burn(rates, tx.core), tx.core.gas, height)
  }

  function ApplyTx(rates: Rates, accounts: Accounts, tx: Tx, height: int, proposer: string): (r: TxResult) {
    if tx.core.nonce != Nonce(accounts, tx.core.sender) then Refused(NonceMismatch)
    else if Balance(accounts, tx.core.sender) < tx.core.value + Fee(rates, tx.core) then Refused(InsufficientFunds)
    else if !rates.signatureOk(tx.core) then Refused(InvalidSignature)
    else Applied(Transfer(rates, accounts, tx.core, Payee(rates, proposer)), Stamp(rates, tx, height))
  }

  // ----- total supply -----

  /** `get_total_supply`: SUM(balance) over the account table. */
  ghost function Total(accounts: Accounts): real {
    if accounts == map[] then 0.0
    else
      var a :| a in accounts;
      accounts[a].balance + Total(accounts - {a})
  }

  lemma {:induction false} TotalRemove(accounts: Accounts, b: string)
    requires b in accounts
    ensures Total(accounts) == accounts[b].balance + Total(accounts - {b})
    decreases |accounts|
  {
    var a :| a in accounts && Total(accounts) == accounts[a].balance + Total(accounts - {a});
    if a != b {
      TotalRemove(accounts - {a}, b);
      TotalRemove(accounts - {b}, a);
      assert accounts - {a} - {b} == accounts - {b} - {a};
    }
  }

  lemma TotalUpdate(accounts: Accounts, a: string, account: Account)
    ensures Total(accounts[a := account]) == Total(accounts) - Balance(accounts, a) + account.balance
  {
    var after := accounts[a := account];
    TotalRemove(after, a);
    if a in accounts {
      TotalRemove(accounts, a);
      assert after - {a} == accounts - {a};
    } else {
      assert after - {a} == accounts;
    }
  }

  /** A balance update changes the supply by its delta, except for what the clamp at zero swallows. */
  lemma DeltaChangesTotal(accounts: Accounts, a: string, delta: real)
    requires NonNegative(accounts)
    ensures NonNegative(ApplyDelta(accounts, a, delta))
    ensures Total(ApplyDelta(accounts, a, delta)) == Total(accounts) + delta + Clamp(-(Balance(accounts, a) + delta))
  {
    TotalUpdate(accounts, a, Account(Clamp(Balance(accounts, a) + delta), Nonce(accounts, a)));
  }

  lemma FeeParts(rates: Rates, core: TxCore)
    requires Sane(rates) && core.gas >= 0
    ensures 0.0 <= Burn(rates, core) <= Fee(rates, core)
  {
    Scaled(core.gas as real, rates.gasPrice, Fee(rates, core));
    ShareOf(Fee(rates, core), rates.burnRate, Burn(rates, core));
  }

  lemma Scaled(x: real, r: real, y: real)
    requires x >= 0.0 && r >= 0.0 && y == x * r
    ensures y >= 0.0
  {
  }

  lemma ShareOf(x: real, r: real, y: real)
    requires x >= 0.0 && 0.0 <= r <= 1.0 && y == x * r
    ensures 0.0 <= y <= x
  {
    Scaled(x, r, y);
    Scaled(x, 1.0 - r, x * (1.0 - r));
    assert x * (1.0 - r) == x - y;
  }

  /** What the receiver holds when the value is credited: the sender was debited just before. */
  function BeforeCredit(accounts: Accounts, core: TxCore, fee: real): real {
    Balance(accounts, core.recipient) - (if core.recipient == core.sender then core.value + fee else 0.0)
  }

  lemma MoveChangesTotal(accounts: Accounts, core: TxCore, fee: real)
    requires NonNegative(accounts) && Balance(accounts, core.sender) >= core.value + fee
    ensures NonNegative(Move(accounts, core, fee))
    ensures Total(Move(accounts, core, fee)) ==
              Total(accounts) - fee + Clamp(-(BeforeCredit(accounts, core, fee) + core.value))
  {
    hide Total, ApplyDelta, Balance, NonNegative;
    var cost := core.value + fee;
    var debited := ApplyDelta(accounts, core.sender, -cost);
    DeltaChangesTotal(accounts, core.sender, -cost);
    DeltaChangesTotal(debited, core.recipient, core.value);
    DeltaAt(accounts, core.sender, -cost, core.recipient);
  }

  lemma MoveIsNonNegative(accounts: Accounts, core: TxCore, fee: real)
    requires NonNegative(accounts)
    ensures NonNegative(Move(accounts, core, fee))
  {
  }

  /** What the payee holds when its share of the fee is paid. */
  function BeforePay(rates: Rates, accounts: Accounts, core: TxCore, payee: string): real {
    Balance(Move(accounts, core, Fee(rates, core)), payee)
  }

  /** What the clamp adds when a negative value takes more than the receiver holds. */
  function SwallowedValue(rates: Rates, accounts: Accounts, core: TxCore): real {
    Clamp(-(BeforeCredit(accounts, core, Fee(rates, core)) + core.value))
  }

  /** What the clamp adds when a negative fee takes more than the payee holds. */
  function SwallowedFee(rates: Rates, accounts: Accounts, core: TxCore, payee: string): real {
    Clamp(-(BeforePay(rates, accounts, core, payee) + Fee(rates, core) - Burn(rates, core)))
  }

  /** The burnt part that reaches the burn address. */
  function BurnPaid(rates: Rates, core: TxCore): real {
    if Burn(rates, core) > 0.0 && rates.burnAddress != "" then Burn(rates, core) else 0.0
  }

  /** What an accepted transaction adds to the supply. */
  function Created(rates: Rates, accounts: Accounts, core: TxCore, payee: string): real {
    SwallowedValue(rates, accounts, core) + SwallowedFee(rates, accounts, core, payee)
    + BurnPaid(rates, core) - Burn(rates, core)
  }

  /**
   The effect of an accepted transaction on the supply, for every value, gas and rate and every
   aliasing of sender, receiver, proposer and burn address: the clamps create what they swallow,
   and the burnt part is lost unless it is positive and a burn address takes it.
   */
  lemma TransferChangesTotal(rates: Rates, accounts: Accounts, core: TxCore, payee: string)
    requires NonNegative(accounts) && Balance(accounts, core.sender) >= core.value + Fee(rates, core)
    ensures NonNegative(Transfer(rates, accounts, core, payee))
    ensures Total(Transfer(rates, accounts, core, payee)) == Total(accounts) + Created(rates, accounts, core, payee)
  {
    hide Fee, Burn, Total, Move, Settle, NonNegative;
    MoveChangesTotal(accounts, core, Fee(rates, core));
    SettleChangesTotal(rates, Move(accounts, core, Fee(rates, core)), core.sender, payee, Fee(rates, core), Burn(rates, core));
  }

  lemma SettleChangesTotal(rates: Rates, accounts: Accounts, sender: string, payee: string, fee: real, burn: real)
    requires NonNegative(accounts)
    ensures NonNegative(Settle(rates, accounts, sender, payee, fee, burn))
    ensures Total(Settle(rates, accounts, sender, payee, fee, burn)) ==
              Total(accounts) + fee - burn + Clamp(-(Balance(accounts, payee) + fee - burn))
              + (if burn > 0.0 && rates.burnAddress != "" then burn else 0.0)
  {
    hide Total;
    var paid := ApplyDelta(accounts, payee, fee - burn);
    DeltaChangesTotal(accounts, payee, fee - burn);
    var burned := paid;
    if burn > 0.0 && rates.burnAddress != "" {
      burned := ApplyDelta(paid, rates.burnAddress, burn);
      DeltaChangesTotal(paid, rates.burnAddress, burn);
    }
    BumpKeepsTotal(burned, sender);
  }

  lemma BumpKeepsTotal(accounts: Accounts, a: string)
    requires NonNegative(accounts)
    ensures NonNegative(BumpNonce(accounts, a)) && Total(BumpNonce(accounts, a)) == Total(accounts)
  {
    TotalUpdate(accounts, a, Account(Balance(accounts, a), Nonce(accounts, a) + 1));
  }

  /** What a transfer moves into (or out of) the account `x`, one summand per role it plays. */
  function Flow(rates: Rates, core: TxCore, payee: string, x: string): real {
    (if x == core.sender then -(core.value + Fee(rates, core)) else 0.0)
    + (if x == core.recipient then core.value else 0.0)
    + (if x == payee then Fee(rates, core) - Burn(rates, core) else 0.0)
    + (if x == rates.burnAddress then BurnPaid(rates, core) else 0.0)
  }

  /** What the clamps add to the account `x`. */
  function Swallowed(rates: Rates, accounts: Accounts, core: TxCore, payee: string, x: string): real {
    (if x == core.recipient then SwallowedValue(rates, accounts, core) else 0.0)
    + (if x == payee then SwallowedFee(rates, accounts, core, payee) else 0.0)
  }

  lemma DeltaAt(accounts: Accounts, a: string, delta: real, x: string)
    ensures Balance(ApplyDelta(accounts, a, delta), x)
            == if x == a then Clamp(Balance(accounts, x) + delta) else Balance(accounts, x)
    ensures Nonce(ApplyDelta(accounts, a, delta), x) == Nonce(accounts, x)
  {
  }

  lemma BumpAt(accounts: Accounts, a: string, x: string)
    ensures Balance(BumpNonce(accounts, a), x) == Balance(accounts, x)
    ensures Nonce(BumpNonce(accounts, a), x) == Nonce(accounts, x) + (if x == a then 1 else 0)
  {
  }

  lemma MoveAt(accounts: Accounts, core: TxCore, fee: real, x: string)
    requires Balance(accounts, core.sender) >= core.value + fee
    ensures Balance(Move(accounts, core, fee), x)
            == Balance(accounts, x) - (if x == core.sender then core.value + fee else 0.0)
               + (if x == core.recipient
                  then core.value + Clamp(-(BeforeCredit(accounts, core, fee) + core.value)) else 0.0)
    ensures Nonce(Move(accounts, core, fee), x) == Nonce(accounts, x)
  {
    hide ApplyDelta, Balance, Nonce;
    var debited := ApplyDelta(accounts, core.sender, -(core.value + fee));
    DeltaAt(accounts, core.sender, -(core.value + fee), x);
    DeltaAt(debited, core.recipient, core.value, x);
  }

  lemma SettleAt(rates: Rates, accounts: Accounts, sender: string, payee: string, fee: real, burn: real, x: string)
    requires NonNegative(accounts)
    ensures Balance(Settle(rates, accounts, sender, payee, fee, burn), x)
            == Balance(accounts, x)
               + (if x == payee then fee - burn + Clamp(-(Balance(accounts, payee) + fee - burn)) else 0.0)
               + (if x == rates.burnAddress && burn > 0.0 && rates.burnAddress != "" then burn else 0.0)
    ensures Nonce(Settle(rates, accounts, sender, payee, fee, burn), x)
            == Nonce(accounts, x) + (if x == sender then 1 else 0)
  {
    assert Balance(accounts, x) >= 0.0;
    hide ApplyDelta, BumpNonce, Balance, Nonce;
    var paid := ApplyDelta(accounts, payee, fee - burn);
    DeltaAt(accounts, payee, fee - burn, x);
    var burned := paid;
    if burn > 0.0 && rates.burnAddress != "" {
      burned := ApplyDelta(paid, rates.burnAddress, burn);
      DeltaAt(paid, rates.burnAddress, burn, x);
    }
    BumpAt(burned, sender, x);
  }

  /**
   Account by account, for every value and gas and every aliasing of the four roles: the balance
   changes by the sum of the flows plus what the clamps swallowed, and only the sender's nonce
   moves.
   */
  lemma TransferFlows(rates: Rates, accounts: Accounts, core: TxCore, payee: string, x: string)
    requires NonNegative(accounts) && Balance(accounts, core.sender) >= core.value + Fee(rates, core)
    ensures Balance(Transfer(rates, accounts, core, payee), x)
            == Balance(accounts, x) + Flow(rates, core, payee, x) + Swallowed(rates, accounts, core, payee, x)
    ensures Nonce(Transfer(rates, accounts, core, payee), x)
            == Nonce(accounts, x) + (if x == core.sender then 1 else 0)
  {
    hide Fee, Burn, Balance, Nonce, Move, Settle, NonNegative, Clamp, BeforeCredit;
    var moved := Move(accounts, core, Fee(rates, core));
    MoveAt(accounts, core, Fee(rates, core), x);
    MoveIsNonNegative(accounts, core, Fee(rates, core));
    SettleAt(rates, moved, core.sender, payee, Fee(rates, core), Burn(rates, core), x);
  }

  /**
   Which transactions execute, check by check in this order, and what is written into them: the
   fee is gas times price and the burnt part its share.
   */
  lemma TransactionOutcome(rates: Rates, accounts: Accounts, tx: Tx, height: int, proposer: string, fee: real, burn: real)
    requires fee == tx.core.gas as real * rates.gasPrice && burn == fee * rates.burnRate
    ensures var r := ApplyTx(rates, accounts, tx, height, proposer);
            var sender := tx.core.sender;
            var nonce := if sender in accounts then accounts[sender].nonce else 0;
            var balance := if sender in accounts then accounts[sender].balance else 0.0;
            if tx.core.nonce != nonce then r == Refused(NonceMismatch)
            else if balance < tx.core.value + fee then r == Refused(InsufficientFunds)
            else if !rates.signatureOk(tx.core) then r == Refused(InvalidSignature)
            else r.Applied? && r.tx == Tx(tx.core, fee, burn, tx.core.gas, height)
  {
    assert Fee(rates, tx.core) == fee && Burn(rates, tx.core) == burn;
    hide Fee, Burn, Transfer;
  }

  /**
   Who earns what from an executed transaction, account by account: the proposer of the block gets
   the fee without the burnt part, whatever address the node itself mines for; only without a
   proposer is it that address, and without both it is "genesis".
   */
  lemma ProposerEarnsFee(rates: Rates, accounts: Accounts, tx: Tx, height: int, proposer: string, fee: real, burn: real,
                         earner: string, x: string)
    requires NonNegative(accounts) && ApplyTx(rates, accounts, tx, height, proposer).Applied?
    requires fee == tx.core.gas as real * rates.gasPrice && burn == fee * rates.burnRate
    requires (proposer != "" && earner == proposer) || (proposer == "" && rates.minerAddress != "" && earner == rates.minerAddress)
             || (proposer == "" && rates.minerAddress == "" && earner == "genesis")
    ensures var after, core := ApplyTx(rates, accounts, tx, height, proposer).accounts, tx.core;
            && Balance(after, x) == Balance(accounts, x)
                 - (if x == core.sender then core.value + fee else 0.0)
                 + (if x == core.recipient then core.value else 0.0)
                 + (if x == earner then fee - burn else 0.0)
                 + (if x == rates.burnAddress && x != "" && burn > 0.0 then burn else 0.0)
                 + Swallowed(rates, accounts, core, earner, x)
            && (x != core.recipient && x != earner ==> Swallowed(rates, accounts, core, earner, x) == 0.0)
            && Nonce(after, x) == Nonce(accounts, x) + (if x == core.sender then 1 else 0)
  {
    hide Fee, Burn, Payee, Transfer, Swallowed, NonNegative, Nonce, Balance;
    FeeIs(rates, tx.core, fee, burn);
    PayeeIs(rates, proposer, earner);
    EarnerFlows(rates, accounts, tx.core, fee, burn, earner, x);
  }

  lemma FeeIs(rates: Rates, core: TxCore, fee: real, burn: real)
    requires fee == core.gas as real * rates.gasPrice && burn == fee * rates.burnRate
    ensures Fee(rates, core) == fee && Burn(rates, core) == burn
  {
  }

  lemma PayeeIs(rates: Rates, proposer: string, earner: string)
    requires (proposer != "" && earner == proposer) || (proposer == "" && rates.minerAddress != "" && earner == rates.minerAddress)
             || (proposer == "" && rates.minerAddress == "" && earner == "genesis")
    ensures Payee(rates, proposer) == earner
  {
  }

  lemma EarnerFlows(rates: Rates, accounts: Accounts, core: TxCore, fee: real, burn: real, earner: string, x: string)
    requires NonNegative(accounts) && Balance(accounts, core.sender) >= core.value + Fee(rates, core)
    requires fee == Fee(rates, core) && burn == Burn(rates, core)
    ensures var after := Transfer(rates, accounts, core, earner);
            && Balance(after, x) == Balance(accounts, x)
                 - (if x == core.sender then core.value + fee else 0.0)
                 + (if x == core.recipient then core.value else 0.0)
                 + (if x == earner then fee - burn else 0.0)
                 + (if x == rates.burnAddress && x != "" && burn > 0.0 then burn else 0.0)
                 + Swallowed(rates, accounts, core, earner, x)
            && (x != core.recipient && x != earner ==> Swallowed(rates, accounts, core, earner, x) == 0.0)
            && Nonce(after, x) == Nonce(accounts, x) + (if x == core.sender then 1 else 0)
  {
    hide Fee, Burn, Transfer, Swallowed, NonNegative, Nonce, Balance;
    TransferFlows(rates, accounts, core, earner, x);
    if x != core.recipient && x != earner { NothingSwallowed(rates, accounts, core, earner, x); }
  }

  lemma NothingSwallowed(rates: Rates, accounts: Accounts, core: TxCore, payee: string, x: string)
    requires x != core.recipient && x != payee
    ensures Swallowed(rates, accounts, core, payee, x) == 0.0
  {
  }

  /**
   Conservation is exact, for every value and gas: with a burn address configured, an accepted
   transaction preserves the total supply if and only if a negative value is covered by what the
   receiver holds, the burnt part is not negative, and a negative share of the fee is covered by
   what the payee holds.
   */
  lemma ConservesIff(rates: Rates, accounts: Accounts, tx: Tx, height: int, proposer: string)
    requires NonNegative(accounts) && rates.burnAddress != ""
    requires ApplyTx(rates, accounts, tx, height, proposer).Applied?
    ensures Total(ApplyTx(rates, accounts, tx, height, proposer).accounts) == Total(accounts) <==>
              && BeforeCredit(accounts, tx.core, Fee(rates, tx.core)) + tx.core.value >= 0.0
              && Burn(rates, tx.core) >= 0.0
              && BeforePay(rates, accounts, tx.core, Payee(rates, proposer)) + Fee(rates, tx.core) - Burn(rates, tx.core) >= 0.0
  {
    hide Total, Transfer, Fee, Burn, BeforePay, BeforeCredit;
    TransferChangesTotal(rates, accounts, tx.core, Payee(rates, proposer));
  }

  /**
   Non-negative values and gas always meet that condition; without a burn address they lose
   exactly the burnt part.
   */
  lemma OrderlyCreatesNothing(rates: Rates, accounts: Accounts, core: TxCore, payee: string)
    requires Sane(rates) && NonNegative(accounts) && core.value >= 0.0 && core.gas >= 0
    requires Balance(accounts, core.sender) >= core.value + Fee(rates, core)
    ensures SwallowedValue(rates, accounts, core) == 0.0 && SwallowedFee(rates, accounts, core, payee) == 0.0
    ensures Created(rates, accounts, core, payee) == if rates.burnAddress == "" then -Burn(rates, core) else 0.0
    ensures Burn(rates, core) >= 0.0
  {
    FeeParts(rates, core);
    hide Fee, Burn, Move, Total;
    MoveChangesTotal(accounts, core, Fee(rates, core));
    assert BeforePay(rates, accounts, core, payee) >= 0.0;
  }

  /** Block execution does not reject negative values, and one can create supply. */
  lemma NegativeValueCreatesSupply(ok: TxCore -> bool)
    requires forall c :: ok(c)
    ensures var rates := Rates(0.0, 0.0, "burn", "", 0.0, 0.0, 0, ok);
            var accounts: Accounts := map["a" := Account(1.0, 0)];
            var tx := Tx(TxCore("a", "b", -5.0, 0, 0, "", ""), 0.0, 0.0, 0, 0);
            && ApplyTx(rates, accounts, tx, 1, "m").Applied?
            && Total(ApplyTx(rates, accounts, tx, 1, "m").accounts) == Total(accounts) + 5.0
  {
    var rates := Rates(0.0, 0.0, "burn", "", 0.0, 0.0, 0, ok);
    var accounts: Accounts := map["a" := Account(1.0, 0)];
    TransferChangesTotal(rates, accounts, TxCore("a", "b", -5.0, 0, 0, "", ""), "m");
  }

  /** Nor negative gas: with no value at all, a negative fee pays the sender ten coins from nowhere. */
  lemma NegativeGasCreatesSupply(ok: TxCore -> bool)
    requires forall c :: ok(c)
    ensures var rates := Rates(1.0, 0.5, "burn", "", 0.0, 0.0, 0, ok);
            var accounts: Accounts := map["a" := Account(1.0, 0)];
            var tx := Tx(TxCore("a", "b", 0.0, 0, -10, "", ""), 0.0, 0.0, 0, 0);
            && ApplyTx(rates, accounts, tx, 1, "m").Applied?
            && Total(ApplyTx(rates, accounts, tx, 1, "m").accounts) == Total(accounts) + 10.0
  {
    hide Total;
    var rates := Rates(1.0, 0.5, "burn", "", 0.0, 0.0, 0, ok);
    var accounts: Accounts := map["a" := Account(1.0, 0)];
    var core := TxCore("a", "b", 0.0, 0, -10, "", "");
    assert Fee(rates, core) == -10.0 && Burn(rates, core) == -5.0;
    MoveAt(accounts, core, -10.0, "m");
    TransferChangesTotal(rates, accounts, core, "m");
  }

  // ----- block reward -----

  ghost function Reward(rates: Rates, accounts: Accounts): (r: real) {
    if Total(accounts) + rates.blockReward > rates.maxSupply then Clamp(rates.maxSupply - Total(accounts))
    else rates.blockReward
  }

  ghost function ApplyReward(rates: Rates, accounts: Accounts, proposer: string): Accounts {
    var reward := Reward(rates, accounts);
    if reward > 0.0 then ApplyDelta(accounts, proposer, reward) else accounts
  }

  /** The reward raises the supply by exactly its amount and never past `max_supply`. */
  lemma RewardIsCapped(rates: Rates, accounts: Accounts, proposer: string)
    requires NonNegative(accounts)
    ensures NonNegative(ApplyReward(rates, accounts, proposer))
    ensures Total(ApplyReward(rates, accounts, proposer)) == Total(accounts) + Clamp(Reward(rates, accounts))
    ensures Total(accounts) <= rates.maxSupply ==>
              Total(ApplyReward(rates, accounts, proposer)) <= rates.maxSupply
  {
    if Reward(rates, accounts) > 0.0 {
      DeltaChangesTotal(accounts, proposer, Reward(rates, accounts));
    }
  }

  /** The miner is paid the block reward as far as the cap leaves room for it, and nobody else is. */
  lemma RewardPaid(rates: Rates, accounts: Accounts, miner: string, x: string)
    requires NonNegative(accounts)
    ensures var room := rates.maxSupply - Total(accounts);
            var paid := Clamp(if rates.blockReward <= room then rates.blockReward else room);
            && Balance(ApplyReward(rates, accounts, miner), x) == Balance(accounts, x) + (if x == miner then paid else 0.0)
            && Nonce(ApplyReward(rates, accounts, miner), x) == Nonce(accounts, x)
  {
    hide Total;
    assert Balance(accounts, x) >= 0.0;
    DeltaAt(accounts, miner, Reward(rates, accounts), x);
  }
}
