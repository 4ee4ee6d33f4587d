/** Journal: the append-only transaction log, the descriptions written into it and the
    newest-first history view of one account. */
module Journal {
  import opened Optional
  import opened Text

  datatype TxType = DepositTx | WithdrawalTx | TransferTx

  /** One ledger row. The store's transaction id and timestamp are not modelled: an
      entry's place in the log is its age. */
  datatype Entry = Entry(account: int, txType: TxType, amount: int, balanceAfter: int, description: string)

  /** The history view shows at most this many entries. */
  const HistoryLimit: nat := 10

  const InitialDepositNote: string := "Initial Deposit"
  const CashDepositNote: string := "Cash Deposit"
  const CashWithdrawalNote: string := "Cash Withdrawal"
  const TransferToPrefix: string := "Transfer to account "
  const TransferFromPrefix: string := "Transfer from account "

  /** Which side of a transfer an entry records. */
  datatype Direction = Outgoing | Incoming

  /** Description of the source entry of a transfer to account `to`. */
  function TransferToNote(to: int): string {
    TransferToPrefix + IntToString(to)
  }

  /** Description of the destination entry of a transfer from account `from`. */
  function TransferFromNote(from: int): string {
    TransferFromPrefix + IntToString(from)
  }

  /** Recovers direction and counterparty from a transfer description; None for any other text. */
  function ParseTransferNote(desc: string): Option<(Direction, int)> {
    if |TransferToPrefix| <= |desc| && desc[..|TransferToPrefix|] == TransferToPrefix then
      match ParseInt(desc[|TransferToPrefix|..])
      case Some(n) => Some((Outgoing, n))
      case None => None
    else if |TransferFromPrefix| <= |desc| && desc[..|TransferFromPrefix|] == TransferFromPrefix then
      match ParseInt(desc[|TransferFromPrefix|..])
      case Some(n) => Some((Incoming, n))
      case None => None
    else None
  }

  /** A transfer description names its direction and its counterparty unambiguously. */
  lemma TransferNotesRoundTrip(n: int)
    ensures ParseTransferNote(TransferToNote(n)) == Some((Outgoing, n))
    ensures ParseTransferNote(TransferFromNote(n)) == Some((Incoming, n))
  {
    IntToStringRoundTrip(n);
    var to := TransferToNote(n);
    assert to[..|TransferToPrefix|] == TransferToPrefix;
    assert to[|TransferToPrefix|..] == IntToString(n);
    var from := TransferFromNote(n);
    assert from[..|TransferToPrefix|] != TransferToPrefix by {
      assert from[9] != TransferToPrefix[9];
    }
    assert from[..|TransferFromPrefix|] == TransferFromPrefix;
    assert from[|TransferFromPrefix|..] == IntToString(n);
  }

  /** The cash notes are not transfer descriptions. */
  lemma CashNotesAreNotTransfers()
    ensures ParseTransferNote(InitialDepositNote) == None
    ensures ParseTransferNote(CashDepositNote) == None
    ensures ParseTransferNote(CashWithdrawalNote) == None
  {
  }

  /** `recordTransaction`: appends one entry to the log. */
  function Record(log: seq<Entry>, n: int, t: TxType, amount: int, balanceAfter: int, desc: string): (r: seq<Entry>)
    ensures |r| == |log| + 1 && r[..|log|] == log
    ensures r[|log|] == Entry(n, t, amount, balanceAfter, desc)
  {
    log + [Entry(n, t, amount, balanceAfter, desc)]
  }

  /** All entries of account `n`, newest first. */
  function NewestFirst(log: seq<Entry>, n: int): (r: seq<Entry>)
    ensures |r| <= |log|
    ensures forall i :: 0 <= i < |r| ==> r[i].account == n
    decreases |log|
  {
    if |log| == 0 then []
    else
      var last := log[|log| - 1];
      (if last.account == n then [last] else []) + NewestFirst(log[..|log| - 1], n)
  }

  /** The balance the newest entry of account `n` records, if it has any entry. */
  function LatestBalance(log: seq<Entry>, n: int): Option<int> {
    var entries := NewestFirst(log, n);
    if |entries| == 0 then None else Some(entries[0].balanceAfter)
  }

  /** The history view: the newest `HistoryLimit` entries of account `n`, newest first. */
  function History(log: seq<Entry>, n: int): (r: seq<Entry>)
    ensures |r| <= HistoryLimit
    ensures forall i :: 0 <= i < |r| ==> r[i].account == n
  {
    var all := NewestFirst(log, n);
    if |all| <= HistoryLimit then all else all[..HistoryLimit]
  }

  /** Splitting the log splits the newest-first view: the later part comes first. */
  lemma {:induction false} NewestFirstAppend(a: seq<Entry>, b: seq<Entry>, n: int)
    ensures NewestFirst(a + b, n) == NewestFirst(b, n) + NewestFirst(a, n)
    decreases |b|
  {
    if |b| == 0 {
      assert a + b == a;
    } else {
      var ab := a + b;
      assert ab[..|ab| - 1] == a + b[..|b| - 1];
      assert ab[|ab| - 1] == b[|b| - 1];
      NewestFirstAppend(a, b[..|b| - 1], n);
    }
  }

  /** After appending `e`, account `e.account` reports `e.balanceAfter` as its latest balance;
      every other account's latest balance is unchanged. */
  lemma LatestBalanceAfterRecord(log: seq<Entry>, e: Entry, n: int)
    ensures LatestBalance(log + [e], n) == if e.account == n then Some(e.balanceAfter) else LatestBalance(log, n)
  {
  }

  /** Appending an entry puts it at the head of its account's history and pushes out the
      oldest entry shown when the view was full; other accounts' histories do not move. */
  lemma HistoryAfterRecord(log: seq<Entry>, e: Entry, n: int)
    ensures e.account == n ==> History(log + [e], n) == HistoryWithNewest(History(log, n), e)
    ensures e.account != n ==> History(log + [e], n) == History(log, n)
  {
  }

  /** A history view `h` with entry `e` shown as the newest: `e` first, then the entries of `h`
      that still fit. */
  function HistoryWithNewest(h: seq<Entry>, e: Entry): (r: seq<Entry>)
    requires |h| <= HistoryLimit
    ensures |r| == if |h| < HistoryLimit then |h| + 1 else HistoryLimit
    ensures r[0] == e
    ensures forall i :: 1 <= i < |r| ==> r[i] == h[i - 1]
  {
    if |h| < HistoryLimit then [e] + h else [e] + h[..HistoryLimit - 1]
  }

  /** The history query, as a scan of the log from its newest end that stops once it has
      `HistoryLimit` entries of the account. */
  method RecentEntries(log: seq<Entry>, n: int) returns (r: seq<Entry>)
    ensures r == History(log, n)
  {
    r := [];
    var i := |log|;
    while i > 0 && |r| < HistoryLimit
      invariant 0 <= i <= |log|
      invariant r == NewestFirst(log[i..], n)
      invariant |r| <= HistoryLimit
      decreases i
    {
      i := i - 1;
      NewestFirstAppend([log[i]], log[i + 1..], n);
      assert [log[i]] + log[i + 1..] == log[i..];
      assert NewestFirst([log[i]], n) == (if log[i].account == n then [log[i]] else []) by {
        assert [log[i]][..0] == [];
      }
      if log[i].account == n {
        r := r + [log[i]];
      }
    }
    NewestFirstAppend(log[..i], log[i..], n);
    assert log[..i] + log[i..] == log;
    if i == 0 {
      assert NewestFirst(log[..i], n) == [] by { assert log[..i] == []; }
      assert NewestFirst(log, n) == r;
    }
  }
}
