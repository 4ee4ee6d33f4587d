/** Bank: the business rules of the banking system as a pure state machine. Each operation
    takes the state and its inputs and returns either an error, in which case the caller
    keeps the old state, or the complete new state. */
module Bank {
  import opened Optional
  import opened Accounts
  import opened Journal

  /** Accounts by number, the transaction log, and the number the store assigns to the
      next account it creates. */
  datatype State = State(accounts: map<int, Account>, log: seq<Entry>, nextNumber: int)

  datatype Error =
    | InvalidAmount
    | AccountNotFound
    | MinimumBalanceViolation
    | InsufficientFunds
    | SameAccount
    | PositiveBalance

  datatype Result<+T> = Ok(value: T) | Err(error: Error)

  /** No accounts and no transactions; the store numbers accounts from 1. */
  const Empty: State := State(map[], [], 1)

  /** `getBalance`: the balance of account `n`, whatever its status. */
  function GetBalance(s: State, n: int): (r: Option<int>)
    ensures r.None? <==> n !in s.accounts
    ensures n in s.accounts ==> r == Some(s.accounts[n].balance)
  {
    if n in s.accounts then Some(s.accounts[n].balance) else None
  }

  /** `getAccountType`. */
  function GetAccountType(s: State, n: int): (r: Option<Kind>)
    ensures r.None? <==> n !in s.accounts
    ensures n in s.accounts ==> r == Some(s.accounts[n].kind)
  {
    if n in s.accounts then Some(s.accounts[n].kind) else None
  }

  /** The balance `getBalance` reports for a missing account: -1.00, in cents. */
  const NotFoundBalance: int := -100

  /** `getBalance` as written: `NotFoundBalance` stands for a missing account. */
  function BalanceOrSentinel(s: State, n: int): int {
    match GetBalance(s, n)
    case Some(b) => b
    case None => NotFoundBalance
  }

  /** The account map after giving account `n` the balance `b`. */
  function SetBalance(m: map<int, Account>, n: int, b: int): map<int, Account>
    requires n in m
  {
    m[n := m[n].(balance := b)]
  }

  /** `after` differs from `before` in at most the balances of the accounts in `changed`. */
  predicate OnlyBalancesChanged(before: map<int, Account>, after: map<int, Account>, changed: set<int>) {
    && after.Keys == before.Keys
    && forall k :: k in before ==>
         after[k] == (if k in changed then before[k].(balance := after[k].balance) else before[k])
  }

  /** The new account of `createAccount`: it takes the next number, holds the initial deposit
      and is recorded with one "Initial Deposit" entry. */
  function Open(s: State, holder: Holder, kind: Kind, initialDeposit: int): State {
    var n := s.nextNumber;
    State(s.accounts[n := Account(holder, kind, initialDeposit, Active)],
          Record(s.log, n, DepositTx, initialDeposit, initialDeposit, InitialDepositNote),
          n + 1)
  }

  /** `createAccount` as written: type code 1 opens a Savings account and any other code a
      Current account, but the minimum is enforced only for type code 2. */
  function CreateAccount(s: State, holder: Holder, typeCode: int, initialDeposit: int): (r: Result<State>)
    ensures initialDeposit < 0 ==> r == Err(InvalidAmount)
    ensures initialDeposit >= 0 && typeCode == 2 && initialDeposit < MinimumBalance ==> r == Err(MinimumBalanceViolation)
    ensures r.Ok? <==> initialDeposit >= 0 && (typeCode == 2 ==> CheckMinimumBalance(initialDeposit))
    ensures r.Ok? ==> Opens(s, r.value, holder, KindOfTypeCode(typeCode), initialDeposit)
  {
    if initialDeposit < 0 then Err(InvalidAmount)
    else if typeCode == 2 && initialDeposit < MinimumBalance then Err(MinimumBalanceViolation)
    else Ok(Open(s, holder, KindOfTypeCode(typeCode), initialDeposit))
  }

  /** `createAccount` with the minimum enforced for every account that opens as Current. */
  function CreateAccountChecked(s: State, holder: Holder, typeCode: int, initialDeposit: int): (r: Result<State>)
    ensures initialDeposit < 0 ==> r == Err(InvalidAmount)
    ensures initialDeposit >= 0 && !MinimumSatisfied(KindOfTypeCode(typeCode), initialDeposit) ==> r == Err(MinimumBalanceViolation)
    ensures r.Ok? <==> initialDeposit >= 0 && MinimumSatisfied(KindOfTypeCode(typeCode), initialDeposit)
    ensures r.Ok? ==> Opens(s, r.value, holder, KindOfTypeCode(typeCode), initialDeposit)
  {
    if initialDeposit < 0 then Err(InvalidAmount)
    else if KindOfTypeCode(typeCode) == Current && initialDeposit < MinimumBalance then Err(MinimumBalanceViolation)
    else Ok(Open(s, holder, KindOfTypeCode(typeCode), initialDeposit))
  }

  /** `t` is `s` with one more account, numbered `s.nextNumber`, of the given kind and holder,
      Active, holding `initialDeposit`; no other account changes, and the log gains exactly
      one Deposit entry whose amount and balance-after are both the initial deposit. */
  predicate Opens(s: State, t: State, holder: Holder, kind: Kind, initialDeposit: int) {
    var n := s.nextNumber;
    && t.nextNumber == n + 1
    && t.accounts.Keys == s.accounts.Keys + {n}
    && t.accounts[n] == Account(holder, kind, initialDeposit, Active)
    && (forall k :: k in s.accounts && k != n ==> t.accounts[k] == s.accounts[k])
    && t.log == s.log + [Entry(n, DepositTx, initialDeposit, initialDeposit, InitialDepositNote)]
  }

  /** `deposit`. The account's status is not consulted: a Closed account accepts deposits. */
  function Deposit(s: State, n: int, amount: int): (r: Result<State>)
    ensures amount <= 0 ==> r == Err(InvalidAmount)
    ensures amount > 0 && n !in s.accounts ==> r == Err(AccountNotFound)
    ensures r.Ok? <==> amount > 0 && n in s.accounts
    ensures r.Ok? ==>
      && OnlyBalancesChanged(s.accounts, r.value.accounts, {n})
      && r.value.accounts[n].balance == s.accounts[n].balance + amount
      && r.value.nextNumber == s.nextNumber
      && r.value.log == s.log + [Entry(n, DepositTx, amount, r.value.accounts[n].balance, CashDepositNote)]
  {
    if amount <= 0 then Err(InvalidAmount)
    else
      match GetBalance(s, n)
      case None => Err(AccountNotFound)
      case Some(current) =>
        var newBalance := current + amount;
        Ok(s.(accounts := SetBalance(s.accounts, n, newBalance),
              log := Record(s.log, n, DepositTx, amount, newBalance, CashDepositNote)))
  }

  /** `withdraw`. For a Current account the minimum-balance check comes first, so it never
      reports insufficient funds. */
  function Withdraw(s: State, n: int, amount: int): (r: Result<State>)
    ensures amount <= 0 ==> r == Err(InvalidAmount)
    ensures amount > 0 && n !in s.accounts ==> r == Err(AccountNotFound)
    ensures (amount > 0 && n in s.accounts && s.accounts[n].kind == Current
             && s.accounts[n].balance - amount < MinimumBalance) ==> r == Err(MinimumBalanceViolation)
    ensures (amount > 0 && n in s.accounts && s.accounts[n].kind == Savings
             && s.accounts[n].balance < amount) ==> r == Err(InsufficientFunds)
    ensures r == Err(MinimumBalanceViolation) ==> s.accounts[n].kind == Current
    ensures r == Err(InsufficientFunds) ==> s.accounts[n].kind == Savings
    ensures r.Ok? <==>
      && amount > 0 && n in s.accounts
      && s.accounts[n].balance - amount >= 0
      && MinimumSatisfied(s.accounts[n].kind, s.accounts[n].balance - amount)
    ensures r.Ok? ==>
      && OnlyBalancesChanged(s.accounts, r.value.accounts, {n})
      && r.value.accounts[n].balance == s.accounts[n].balance - amount
      && r.value.nextNumber == s.nextNumber
      && r.value.log == s.log + [Entry(n, WithdrawalTx, amount, r.value.accounts[n].balance, CashWithdrawalNote)]
  {
    if amount <= 0 then Err(InvalidAmount)
    else
      match GetBalance(s, n)
      case None => Err(AccountNotFound)
      case Some(current) =>
        if GetAccountType(s, n) == Some(Current) && current - amount < MinimumBalance then Err(MinimumBalanceViolation)
        else if current < amount then
          assert s.accounts[n].kind == Savings;
          Err(InsufficientFunds)
        else
          var newBalance := current - amount;
          Ok(s.(accounts := SetBalance(s.accounts, n, newBalance),
                log := Record(s.log, n, WithdrawalTx, amount, newBalance, CashWithdrawalNote)))
  }

  /** `transfer`. Either both balances and both log entries change together, or nothing does. */
  function Transfer(s: State, from: int, to: int, amount: int): (r: Result<State>)
    ensures amount <= 0 ==> r == Err(InvalidAmount)
    ensures amount > 0 && from == to ==> r == Err(SameAccount)
    ensures amount > 0 && from != to && (from !in s.accounts || to !in s.accounts) ==> r == Err(AccountNotFound)
    ensures (amount > 0 && from != to && from in s.accounts && to in s.accounts
             && s.accounts[from].kind == Current
             && s.accounts[from].balance - amount < MinimumBalance) ==> r == Err(MinimumBalanceViolation)
    ensures (amount > 0 && from != to && from in s.accounts && to in s.accounts
             && s.accounts[from].kind == Savings
             && s.accounts[from].balance < amount) ==> r == Err(InsufficientFunds)
    ensures r == Err(MinimumBalanceViolation) ==> s.accounts[from].kind == Current
    ensures r == Err(InsufficientFunds) ==> s.accounts[from].kind == Savings
    ensures r.Ok? <==>
      && amount > 0 && from != to && from in s.accounts && to in s.accounts
      && s.accounts[from].balance - amount >= 0
      && MinimumSatisfied(s.accounts[from].kind, s.accounts[from].balance - amount)
    ensures r.Ok? ==>
      && OnlyBalancesChanged(s.accounts, r.value.accounts, {from, to})
      && r.value.accounts[from].balance == s.accounts[from].balance - amount
      && r.value.accounts[to].balance == s.accounts[to].balance + amount
      && r.value.accounts[from].balance + r.value.accounts[to].balance
         == s.accounts[from].balance + s.accounts[to].balance
      && r.value.nextNumber == s.nextNumber
      && r.value.log == s.log + [
           Entry(from, TransferTx, amount, r.value.accounts[from].balance, TransferToNote(to)),
           Entry(to, TransferTx, amount, r.value.accounts[to].balance, TransferFromNote(from))]
  {
    if amount <= 0 then Err(InvalidAmount)
    else if from == to then Err(SameAccount)
    else
      match (GetBalance(s, from), GetBalance(s, to))
      case (Some(fromBalance), Some(toBalance)) =>
        if GetAccountType(s, from) == Some(Current) && fromBalance - amount < MinimumBalance then Err(MinimumBalanceViolation)
        else if fromBalance < amount then
          assert s.accounts[from].kind == Savings;
          Err(InsufficientFunds)
        else
          var newFromBalance := fromBalance - amount;
          var newToBalance := toBalance + amount;
          var accounts := SetBalance(SetBalance(s.accounts, from, newFromBalance), to, newToBalance);
          var log := Record(s.log, from, TransferTx, amount, newFromBalance, TransferToNote(to));
          Ok(s.(accounts := accounts,
                log := Record(log, to, TransferTx, amount, newToBalance, TransferFromNote(from))))
      case _ => Err(AccountNotFound)
  }

  /** `closeAccount`. Only a positive balance blocks closing; no log entry is written. */
  function CloseAccount(s: State, n: int): (r: Result<State>)
    ensures n !in s.accounts ==> r == Err(AccountNotFound)
    ensures n in s.accounts && s.accounts[n].balance > 0 ==> r == Err(PositiveBalance)
    ensures r.Ok? <==> n in s.accounts && s.accounts[n].balance <= 0
    ensures r.Ok? ==>
      && r.value.accounts.Keys == s.accounts.Keys
      && r.value.accounts[n] == s.accounts[n].(status := Closed)
      && (forall k :: k in s.accounts && k != n ==> r.value.accounts[k] == s.accounts[k])
      && r.value.log == s.log
      && r.value.nextNumber == s.nextNumber
  {
    match GetBalance(s, n)
    case None => Err(AccountNotFound)
    case Some(balance) =>
      if balance > 0 then Err(PositiveBalance)
      else Ok(s.(accounts := s.accounts[n := s.accounts[n].(status := Closed)]))
  }

  /** The interest report: every Savings account with the interest its balance earns. */
  function InterestReport(s: State): (r: map<int, real>)
    ensures forall n :: n in r <==> n in s.accounts && s.accounts[n].kind == Savings
    ensures forall n :: n in r ==> 25.0 * r[n] == s.accounts[n].balance as real
  {
    map n | n in s.accounts && s.accounts[n].kind == Savings :: CalculateInterest(Savings, s.accounts[n].balance)
  }

  /** For a Current account and a positive amount, a withdrawal goes through exactly when the
      balance it leaves passes `CheckMinimumBalance`. */
  lemma WithdrawCurrentRespectsMinimum(s: State, n: int, amount: int)
    requires n in s.accounts && s.accounts[n].kind == Current && amount > 0
    ensures Withdraw(s, n, amount).Ok? <==> CheckMinimumBalance(s.accounts[n].balance - amount)
  {
  }

  /** The same for the source of a transfer between two existing, distinct accounts. */
  lemma TransferCurrentRespectsMinimum(s: State, from: int, to: int, amount: int)
    requires from in s.accounts && to in s.accounts && from != to
    requires s.accounts[from].kind == Current && amount > 0
    ensures Transfer(s, from, to, amount).Ok? <==> CheckMinimumBalance(s.accounts[from].balance - amount)
  {
  }

  /** Withdrawing exactly down to the Current minimum succeeds; one cent more is refused
      with the minimum-balance error. */
  lemma WithdrawalBoundary(s: State, n: int)
    requires n in s.accounts && s.accounts[n].kind == Current
    requires s.accounts[n].balance > MinimumBalance
    ensures Withdraw(s, n, s.accounts[n].balance - MinimumBalance).Ok?
    ensures Withdraw(s, n, s.accounts[n].balance - MinimumBalance + 1) == Err(MinimumBalanceViolation)
  {
  }

  /** After a transfer the newest entry in the source's history is the outgoing entry and the
      newest in the destination's history is the incoming one, each naming the other account. */
  lemma TransferShowsInBothHistories(s: State, from: int, to: int, amount: int)
    requires Transfer(s, from, to, amount).Ok?
    ensures var t := Transfer(s, from, to, amount).value;
      && 0 < |History(t.log, from)| && 0 < |History(t.log, to)|
      && History(t.log, from)[0] == Entry(from, TransferTx, amount, t.accounts[from].balance, TransferToNote(to))
      && History(t.log, to)[0] == Entry(to, TransferTx, amount, t.accounts[to].balance, TransferFromNote(from))
  {
    var t := Transfer(s, from, to, amount).value;
    var e1 := t.log[|s.log|];
    var e2 := t.log[|s.log| + 1];
    assert t.log == (s.log + [e1]) + [e2];
    HistoryAfterRecord(s.log, e1, from);
    HistoryAfterRecord(s.log + [e1], e2, from);
    HistoryAfterRecord(s.log + [e1], e2, to);
  }
}
