/** Accounts: the two account kinds and the rules that depend on the kind.
    Money is counted in integer cents throughout, so 1000.00 is 100000. */
module Accounts {

  /** The Current-account minimum balance, 1000.00. */
  const MinimumBalance: int := 100000

  /** Savings accounts earn 4% a year; the figure is reported, never posted. */
  const InterestRate: real := 0.04

  datatype Kind = Savings | Current

  datatype Status = Active | Closed

  /** Contact details, opaque to every rule of the ledger. */
  datatype Holder = Holder(name: string, phone: string, email: string, address: string)

  datatype Account = Account(holder: Holder, kind: Kind, balance: int, status: Status)

  /** The kind an account is opened with: type code 1 is Savings, every other code Current. */
  function KindOfTypeCode(code: int): (k: Kind)
    ensures k == Savings <==> code == 1
  {
    if code == 1 then Savings else Current
  }

  /** Yearly interest in cents, without rounding: a twenty-fifth of a Savings balance,
      nothing for a Current account. */
  function CalculateInterest(kind: Kind, balance: int): (r: real)
    ensures kind == Current ==> r == 0.0
    ensures kind == Savings ==> 25.0 * r == balance as real
    ensures balance >= 0 ==> 0.0 <= r <= balance as real
  {
    match kind
    case Savings => balance as real * InterestRate
    case Current => 0.0
  }

  /** `CurrentAccount::checkMinimumBalance`. */
  predicate CheckMinimumBalance(balance: int) {
    balance >= MinimumBalance
  }

  /** The minimum-balance rule for either kind: Savings accounts have no minimum. */
  predicate MinimumSatisfied(kind: Kind, balance: int) {
    kind == Savings || CheckMinimumBalance(balance)
  }
}
