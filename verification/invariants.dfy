/** Invariants: the banking system as a sequence of operations from the empty state, and the
    properties every reachable state keeps. */
module Invariants {
  import opened Optional
  import opened Accounts
  import opened Journal
  import opened Bank

  /** One request to the banking system. */
  datatype Op =
    | CreateOp(holder: Holder, typeCode: int, initialDeposit: int)
    | DepositOp(account: int, amount: int)
    | WithdrawOp(account: int, amount: int)
    | TransferOp(from: int, to: int, amount: int)
    | CloseOp(account: int)

  /** Which account-opening rule applies: the one in the source, or the corrected one that
      enforces the minimum for every Current account. */
  datatype Opening = AsWritten | Corrected

  function Apply(s: State, op: Op, rule: Opening): Result<State> {
    match op
    case CreateOp(h, t, d) =>
      if rule == AsWritten then CreateAccount(s, h, t, d) else CreateAccountChecked(s, h, t, d)
    case DepositOp(n, a) => Deposit(s, n, a)
    case WithdrawOp(n, a) => Withdraw(s, n, a)
    case TransferOp(f, t, a) => Transfer(s, f, t, a)
    case CloseOp(n) => CloseAccount(s, n)
  }

  /** The state after one request: a rejected request leaves every account and the log as
      they were. */
  function Step(s: State, op: Op, rule: Opening): (t: State)
    ensures Apply(s, op, rule).Err? ==> t == s
    ensures t.log == s.log || |t.log| > |s.log|
    ensures |t.log| > |s.log| ==> t.log[..|s.log|] == s.log
  {
    match Apply(s, op, rule)
    case Ok(t) => t
    case Err(_) => s
  }

  function Run(s: State, ops: seq<Op>, rule: Opening): State
    decreases |ops|
  {
    if |ops| == 0 then s else Run(Step(s, ops[0], rule), ops[1..], rule)
  }

  /** The state is one the operations can produce: account numbers are the store's, below
      the next one it will assign; balances are never negative; every log entry belongs to
      an existing account; and every account's balance is the balance-after of its newest
      log entry. */
  ghost predicate Consistent(s: State) {
    && s.nextNumber >= 1
    && (forall n :: n in s.accounts ==> 1 <= n < s.nextNumber)
    && (forall n :: n in s.accounts ==> s.accounts[n].balance >= 0)
    && (forall i :: 0 <= i < |s.log| ==> s.log[i].account in s.accounts)
    && (forall n :: n in s.accounts ==> LatestBalance(s.log, n) == Some(s.accounts[n].balance))
  }

  /** Every Current account holds at least the minimum balance. */
  ghost predicate Funded(s: State) {
    forall n :: n in s.accounts ==> MinimumSatisfied(s.accounts[n].kind, s.accounts[n].balance)
  }

  lemma EmptyIsConsistent()
    ensures Consistent(Empty) && Funded(Empty)
  {
  }

  lemma {:induction false} OpenPreservesConsistent(s: State, holder: Holder, kind: Kind, d: int)
    requires Consistent(s) && d >= 0
    ensures Consistent(Open(s, holder, kind, d))
  {
    var t := Open(s, holder, kind, d);
    var e := Entry(s.nextNumber, DepositTx, d, d, InitialDepositNote);
    assert t.log == s.log + [e];
    forall k | k in t.accounts
      ensures t.accounts[k].balance >= 0
      ensures LatestBalance(t.log, k) == Some(t.accounts[k].balance)
    {
      LatestBalanceAfterRecord(s.log, e, k);
    }
    AppendKeepsOwners(s.log, [e], t.accounts);
  }

  lemma {:induction false} DepositPreservesConsistent(s: State, n: int, amount: int)
    requires Consistent(s) && Deposit(s, n, amount).Ok?
    ensures Consistent(Deposit(s, n, amount).value)
  {
    var t := Deposit(s, n, amount).value;
    var e := Entry(n, DepositTx, amount, t.accounts[n].balance, CashDepositNote);
    assert t.log == s.log + [e];
    assert OnlyBalancesChanged(s.accounts, t.accounts, {n});
    forall k | k in t.accounts
      ensures t.accounts[k].balance >= 0
      ensures LatestBalance(t.log, k) == Some(t.accounts[k].balance)
    {
      LatestBalanceAfterRecord(s.log, e, k);
      if k != n {
        assert t.accounts[k] == s.accounts[k];
      }
    }
    AppendKeepsOwners(s.log, [e], t.accounts);
  }

  lemma {:induction false} WithdrawPreservesConsistent(s: State, n: int, amount: int)
    requires Consistent(s) && Withdraw(s, n, amount).Ok?
    ensures Consistent(Withdraw(s, n, amount).value)
  {
    var t := Withdraw(s, n, amount).value;
    var e := Entry(n, WithdrawalTx, amount, t.accounts[n].balance, CashWithdrawalNote);
    assert t.log == s.log + [e];
    assert OnlyBalancesChanged(s.accounts, t.accounts, {n});
    forall k | k in t.accounts
      ensures t.accounts[k].balance >= 0
      ensures LatestBalance(t.log, k) == Some(t.accounts[k].balance)
    {
      LatestBalanceAfterRecord(s.log, e, k);
      if k != n {
        assert t.accounts[k] == s.accounts[k];
      }
    }
    AppendKeepsOwners(s.log, [e], t.accounts);
  }

  /** Appending entries for accounts that exist keeps every log entry on an existing account. */
  lemma AppendKeepsOwners(log: seq<Entry>, es: seq<Entry>, accounts: map<int, Account>)
    requires forall i :: 0 <= i < |log| ==> log[i].account in accounts
    requires forall i :: 0 <= i < |es| ==> es[i].account in accounts
    ensures forall i :: 0 <= i < |log + es| ==> (log + es)[i].account in accounts
  {
  }

  lemma {:induction false} TransferPreservesConsistent(s: State, from: int, to: int, amount: int)
    requires Consistent(s) && Transfer(s, from, to, amount).Ok?
    ensures Consistent(Transfer(s, from, to, amount).value)
  {
    var t := Transfer(s, from, to, amount).value;
    var e1 := Entry(from, TransferTx, amount, t.accounts[from].balance, TransferToNote(to));
    var e2 := Entry(to, TransferTx, amount, t.accounts[to].balance, TransferFromNote(from));
    assert t.log == s.log + [e1, e2];
    assert t.log == (s.log + [e1]) + [e2];
    assert OnlyBalancesChanged(s.accounts, t.accounts, {from, to});
    forall k | k in t.accounts
      ensures t.accounts[k].balance >= 0
      ensures LatestBalance(t.log, k) == Some(t.accounts[k].balance)
    {
      LatestBalanceAfterRecord(s.log, e1, k);
      LatestBalanceAfterRecord(s.log + [e1], e2, k);
      if k != from && k != to {
        assert t.accounts[k] == s.accounts[k];
      }
    }
    AppendKeepsOwners(s.log, [e1, e2], t.accounts);
  }

  lemma ClosePreservesConsistent(s: State, n: int)
    requires Consistent(s) && CloseAccount(s, n).Ok?
    ensures Consistent(CloseAccount(s, n).value)
  {
  }

  /** Every operation, under either opening rule, keeps the state consistent. */
  lemma {:induction false} StepPreservesConsistent(s: State, op: Op, rule: Opening)
    requires Consistent(s)
    ensures Consistent(Step(s, op, rule))
  {
    match op
    case CreateOp(h, tc, d) =>
      if Apply(s, op, rule).Ok? {
        assert d >= 0;
        assert Step(s, op, rule) == Open(s, h, KindOfTypeCode(tc), d);
        OpenPreservesConsistent(s, h, KindOfTypeCode(tc), d);
      }
    case DepositOp(n, a) =>
      if Apply(s, op, rule).Ok? { DepositPreservesConsistent(s, n, a); }
    case WithdrawOp(n, a) =>
      if Apply(s, op, rule).Ok? { WithdrawPreservesConsistent(s, n, a); }
    case TransferOp(f, t, a) =>
      if Apply(s, op, rule).Ok? { TransferPreservesConsistent(s, f, t, a); }
    case CloseOp(n) =>
      if Apply(s, op, rule).Ok? { ClosePreservesConsistent(s, n); }
  }

  /** Every state reachable from a consistent one is consistent: balances stay non-negative
      and each balance is the one its newest log entry records. */
  lemma {:induction false} RunPreservesConsistent(s: State, ops: seq<Op>, rule: Opening)
    requires Consistent(s)
    ensures Consistent(Run(s, ops, rule))
    decreases |ops|
  {
    if |ops| > 0 {
      StepPreservesConsistent(s, ops[0], rule);
      RunPreservesConsistent(Step(s, ops[0], rule), ops[1..], rule);
    }
  }

  /** With the corrected opening rule, every operation keeps every Current account at or
      above the minimum. */
  lemma {:induction false} CorrectedStepPreservesFunded(s: State, op: Op)
    requires Funded(s)
    ensures Funded(Step(s, op, Corrected))
  {
    var r := Apply(s, op, Corrected);
    if r.Ok? {
      var t := r.value;
      forall k | k in t.accounts
        ensures MinimumSatisfied(t.accounts[k].kind, t.accounts[k].balance)
      {
        match op
        case CreateOp(h, tc, d) =>
          if k != s.nextNumber {
            assert t.accounts[k] == s.accounts[k];
          }
        case DepositOp(n, a) =>
          assert OnlyBalancesChanged(s.accounts, t.accounts, {n});
          assert t.accounts[k].kind == s.accounts[k].kind;
        case WithdrawOp(n, a) =>
          assert OnlyBalancesChanged(s.accounts, t.accounts, {n});
          if k != n {
            assert t.accounts[k] == s.accounts[k];
          }
        case TransferOp(f, to, a) =>
          assert OnlyBalancesChanged(s.accounts, t.accounts, {f, to});
          assert t.accounts[k].kind == s.accounts[k].kind;
          if k != f && k != to {
            assert t.accounts[k] == s.accounts[k];
          }
        case CloseOp(n) =>
          if k != n {
            assert t.accounts[k] == s.accounts[k];
          }
      }
    }
  }

  /** With the corrected opening rule, no sequence of operations from the empty state
      produces a Current account below the minimum. */
  lemma {:induction false} CorrectedRunPreservesFunded(s: State, ops: seq<Op>)
    requires Funded(s)
    ensures Funded(Run(s, ops, Corrected))
    decreases |ops|
  {
    if |ops| > 0 {
      CorrectedStepPreservesFunded(s, ops[0]);
      CorrectedRunPreservesFunded(Step(s, ops[0], Corrected), ops[1..]);
    }
  }

  /** As written, opening an account with type code 3 and no deposit yields a Current
      account holding nothing, below the minimum. */
  lemma UnderfundedCurrentAccount()
    ensures Run(Empty, [CreateOp(Holder("", "", "", ""), 3, 0)], AsWritten).accounts[1]
            == Account(Holder("", "", "", ""), Current, 0, Active)
    ensures !Funded(Run(Empty, [CreateOp(Holder("", "", "", ""), 3, 0)], AsWritten))
  {
  }

  /** In a consistent state the -1.00 sentinel of `getBalance` means exactly "no such account",
      so reading it as None loses nothing. */
  lemma SentinelMeansMissing(s: State, n: int)
    requires Consistent(s)
    ensures BalanceOrSentinel(s, n) == NotFoundBalance <==> n !in s.accounts
  {
  }

  /** A Current account at or above the minimum holds a positive balance, so closing it is
      always refused. */
  lemma FundedCurrentCannotClose(s: State, n: int)
    requires n in s.accounts && s.accounts[n].kind == Current
    requires CheckMinimumBalance(s.accounts[n].balance)
    ensures CloseAccount(s, n) == Err(PositiveBalance)
  {
  }
}
