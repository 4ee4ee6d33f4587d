/** Conservation: the money held across all accounts, and how each operation changes it. */
module Conservation {
  import opened Accounts
  import opened Bank

  lemma HasKey(m: map<int, Account>)
    requires |m.Keys| > 0
    ensures exists k :: k in m.Keys
  {
    if forall k :: k !in m.Keys {
      assert false;
    }
  }

  /** Some account number of a non-empty map. */
  ghost function Pick(m: map<int, Account>): (k: int)
    requires |m.Keys| > 0
    ensures k in m
  {
    HasKey(m);
    var k :| k in m.Keys; k
  }

  /** The sum of all balances. */
  ghost function Total(m: map<int, Account>): int
    decreases |m.Keys|
  {
    if |m.Keys| == 0 then 0
    else
      var k := Pick(m);
      assert (m - {k}).Keys == m.Keys - {k};
      m[k].balance + Total(m - {k})
  }

  /** Total may be computed by taking out any account first. */
  lemma {:induction false} TotalRemove(m: map<int, Account>, k: int)
    requires k in m
    ensures Total(m) == m[k].balance + Total(m - {k})
    decreases |m.Keys|
  {
    var j := Pick(m);
    assert (m - {j}).Keys == m.Keys - {j};
    assert (m - {k}).Keys == m.Keys - {k};
    if j != k {
      assert k in m - {j};
      TotalRemove(m - {j}, k);
      assert j in m - {k};
      TotalRemove(m - {k}, j);
      assert m - {j} - {k} == m - {k} - {j};
    }
  }

  /** Replacing one account changes the total by the change in its balance. */
  lemma TotalUpdate(m: map<int, Account>, k: int, a: Account)
    requires k in m
    ensures Total(m[k := a]) == Total(m) - m[k].balance + a.balance
  {
    TotalRemove(m, k);
    TotalRemove(m[k := a], k);
    assert m[k := a] - {k} == m - {k};
  }

  /** Adding a new account adds its balance to the total. */
  lemma TotalInsert(m: map<int, Account>, k: int, a: Account)
    requires k !in m
    ensures Total(m[k := a]) == Total(m) + a.balance
  {
    TotalRemove(m[k := a], k);
    assert m[k := a] - {k} == m;
  }

  /** A transfer moves money between two accounts and creates or destroys none. */
  lemma TransferConservesTotal(s: State, from: int, to: int, amount: int)
    requires Transfer(s, from, to, amount).Ok?
    ensures Total(Transfer(s, from, to, amount).value.accounts) == Total(s.accounts)
  {
    var t := Transfer(s, from, to, amount).value;
    var mid := s.accounts[from := t.accounts[from]];
    TotalUpdate(s.accounts, from, t.accounts[from]);
    TotalUpdate(mid, to, t.accounts[to]);
    assert mid[to := t.accounts[to]] == t.accounts;
  }

  /** A deposit adds exactly its amount to the money held. */
  lemma DepositAddsAmount(s: State, n: int, amount: int)
    requires Deposit(s, n, amount).Ok?
    ensures Total(Deposit(s, n, amount).value.accounts) == Total(s.accounts) + amount
  {
    var t := Deposit(s, n, amount).value;
    TotalUpdate(s.accounts, n, t.accounts[n]);
    assert s.accounts[n := t.accounts[n]] == t.accounts;
  }

  /** A withdrawal takes exactly its amount out of the money held. */
  lemma WithdrawRemovesAmount(s: State, n: int, amount: int)
    requires Withdraw(s, n, amount).Ok?
    ensures Total(Withdraw(s, n, amount).value.accounts) == Total(s.accounts) - amount
  {
    var t := Withdraw(s, n, amount).value;
    TotalUpdate(s.accounts, n, t.accounts[n]);
    assert s.accounts[n := t.accounts[n]] == t.accounts;
  }

  /** Opening an account with a fresh number adds the initial deposit to the money held. */
  lemma CreateAddsInitialDeposit(s: State, holder: Holder, typeCode: int, d: int)
    requires s.nextNumber !in s.accounts && CreateAccount(s, holder, typeCode, d).Ok?
    ensures Total(CreateAccount(s, holder, typeCode, d).value.accounts) == Total(s.accounts) + d
  {
    var t := CreateAccount(s, holder, typeCode, d).value;
    TotalInsert(s.accounts, s.nextNumber, t.accounts[s.nextNumber]);
    assert s.accounts[s.nextNumber := t.accounts[s.nextNumber]] == t.accounts;
  }

  /** Closing an account moves no money. */
  lemma CloseKeepsTotal(s: State, n: int)
    requires CloseAccount(s, n).Ok?
    ensures Total(CloseAccount(s, n).value.accounts) == Total(s.accounts)
  {
    var t := CloseAccount(s, n).value;
    TotalUpdate(s.accounts, n, t.accounts[n]);
  }
}
