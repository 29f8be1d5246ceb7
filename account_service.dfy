/**
 * The account service of the quick-start sample
 * (quick_start/account/service/account.go): Deduct reads the user's
 * account row, checks the balance, and writes the reduced balance back.
 *
 * The accounts table is a sequence of rows in primary-key order. The
 * database's own failures (a query error other than "not found", a
 * failed update) are inputs, since nothing in the sample decides them.
 */
module Accounts {
  import opened Common

  /** A row of the accounts table (model.Account). */
  datatype Account = Account(id: Int64, userId: Int64, balance: Int64, freeze: Int64, ctime: Int64, utime: Int64)

  /** The errors Deduct returns. */
  datatype DeductError =
    | AccountNotFound(userId: Int64)                          // account not found for user_id
    | QueryFailed(cause: string)                              // failed to query account
    | InsufficientBalance(current: Int64, required: Int64)    // insufficient balance
    | DeductFailed(cause: string)                             // failed to deduct balance

  /** The text of each error, as fmt.Errorf formats it (%w appends the cause's text). */
  function ErrorText(e: DeductError): (t: string)
    ensures e.AccountNotFound? ==> HasPrefix(t, "account not found for user_id: ")
    ensures e.QueryFailed? ==> HasPrefix(t, "failed to query account: ")
    ensures e.InsufficientBalance? ==> HasPrefix(t, "insufficient balance: current balance ")
    ensures e.DeductFailed? ==> HasPrefix(t, "failed to deduct balance: ")
  {
    match e
    case AccountNotFound(u) => "account not found for user_id: " + IntToDecimal(u)
    case QueryFailed(c) => "failed to query account: " + c
    case InsufficientBalance(cur, req) =>
      "insufficient balance: current balance " + IntToDecimal(cur) + ", required " + IntToDecimal(req)
    case DeductFailed(c) => "failed to deduct balance: " + c
  }

  /** Rows listed in ascending primary-key order. */
  predicate KeyOrdered(rows: seq<Account>)
  {
    forall i, j :: 0 <= i < j < |rows| ==> rows[i].id < rows[j].id
  }

  /** `Where("user_id = ?").First(...)`: the user's row with the smallest primary key. */
  function FirstByUser(rows: seq<Account>, userId: Int64): (r: Option<Account>)
    ensures r.None? <==> forall a :: a in rows ==> a.userId != userId
    ensures r.Some? ==> r.value in rows && r.value.userId == userId
    ensures r.Some? && KeyOrdered(rows) ==> forall a :: a in rows && a.userId == userId ==> r.value.id <= a.id
  {
    if |rows| == 0 then None
    else if rows[0].userId == userId then
      assert forall a :: a in rows ==> a == rows[0] || a in rows[1..];
      Some(rows[0])
    else
      var rest := FirstByUser(rows[1..], userId);
      assert forall a :: a in rows ==> a == rows[0] || a in rows[1..];
      rest
  }

  /** `Update("balance", b)` on every row of the user: only the balance column changes. */
  function SetBalance(rows: seq<Account>, userId: Int64, b: Int64): seq<Account>
  {
    seq(|rows|, i requires 0 <= i < |rows| =>
      if rows[i].userId == userId then rows[i].(balance := b) else rows[i])
  }

  /** The update writes b into the balance of every row of the user, and leaves every other row as it was. */
  lemma SetBalanceRows(rows: seq<Account>, userId: Int64, b: Int64)
    ensures |SetBalance(rows, userId, b)| == |rows|
    ensures forall i :: 0 <= i < |rows| && rows[i].userId == userId ==>
      SetBalance(rows, userId, b)[i] == rows[i].(balance := b)
    ensures forall i :: 0 <= i < |rows| && rows[i].userId != userId ==> SetBalance(rows, userId, b)[i] == rows[i]
  {
  }

  /** Only the balance column changes, so the primary keys keep their order. */
  lemma SetBalanceKeepsKeys(rows: seq<Account>, userId: Int64, b: Int64)
    requires KeyOrdered(rows)
    ensures KeyOrdered(SetBalance(rows, userId, b))
  {
    var r := SetBalance(rows, userId, b);
    assert forall i :: 0 <= i < |rows| ==> r[i].id == rows[i].id;
  }

  /**
   * What Deduct returns and the table it leaves. queryFault is a database
   * error of the SELECT other than "record not found"; updateFault an
   * error of the UPDATE.
   */
  function DeductOutcome(rows: seq<Account>, account: Account,
                         queryFault: Option<string>, updateFault: Option<string>): (Option<DeductError>, seq<Account>)
  {
    if queryFault.Some? then (Some(QueryFailed(queryFault.value)), rows)
    else match FirstByUser(rows, account.userId)
      case None => (Some(AccountNotFound(account.userId)), rows)
      case Some(current) =>
        if current.balance < account.balance then
          (Some(InsufficientBalance(current.balance, account.balance)), rows)
        else if updateFault.Some? then (Some(DeductFailed(updateFault.value)), rows)
        else (None, SetBalance(rows, account.userId, Wrap64(current.balance - account.balance)))
  }

  /** The accounts table behind AccountService. */
  class AccountService {
    var accounts: seq<Account>

    ghost predicate Valid()
      reads this
    {
      KeyOrdered(accounts)
    }

    constructor (accounts: seq<Account>)
      requires KeyOrdered(accounts)
      ensures Valid() && this.accounts == accounts
    {
      this.accounts := accounts;
    }

    /** Deduct account.balance from the balance of account.userId. */
    method Deduct(account: Account, queryFault: Option<string>, updateFault: Option<string>)
      returns (err: Option<DeductError>)
      requires Valid()
      modifies this
      ensures Valid()
      ensures (err, accounts) == DeductOutcome(old(accounts), account, queryFault, updateFault)
    {
      var userAccount := FirstByUser(accounts, account.userId);
      if queryFault.Some? {
        return Some(QueryFailed(queryFault.value));
      }
      if userAccount.None? {
        return Some(AccountNotFound(account.userId));
      }
      var current := userAccount.value;
      if current.balance < account.balance {
        return Some(InsufficientBalance(current.balance, account.balance));
      }
      var newBalance := Wrap64(current.balance - account.balance);
      if updateFault.Some? {
        return Some(DeductFailed(updateFault.value));
      }
      SetBalanceKeepsKeys(accounts, account.userId, newBalance);
      accounts := SetBalance(accounts, account.userId, newBalance);
      return None;
    }
  }

  /** Every error leaves the table as it was. */
  lemma DeductErrorWritesNothing(rows: seq<Account>, account: Account, queryFault: Option<string>, updateFault: Option<string>)
    ensures DeductOutcome(rows, account, queryFault, updateFault).0.Some? ==>
              DeductOutcome(rows, account, queryFault, updateFault).1 == rows
  {
  }

  /** With no row for the user, Deduct reports the user as not found. */
  lemma DeductMissingAccount(rows: seq<Account>, account: Account, updateFault: Option<string>)
    requires forall a :: a in rows ==> a.userId != account.userId
    ensures DeductOutcome(rows, account, None, updateFault) == (Some(AccountNotFound(account.userId)), rows)
  {
  }

  /** A stored balance below the request is reported with both amounts. */
  lemma DeductInsufficient(rows: seq<Account>, account: Account, updateFault: Option<string>, current: Account)
    requires FirstByUser(rows, account.userId) == Some(current)
    requires current.balance < account.balance
    ensures DeductOutcome(rows, account, None, updateFault)
         == (Some(InsufficientBalance(current.balance, account.balance)), rows)
  {
  }

  /**
   * Deduct succeeds exactly when the query and update work, the user has a
   * row and its balance covers the request.
   */
  lemma DeductSucceedsIff(rows: seq<Account>, account: Account, queryFault: Option<string>, updateFault: Option<string>)
    ensures DeductOutcome(rows, account, queryFault, updateFault).0.None? <==>
      && queryFault.None? && updateFault.None?
      && FirstByUser(rows, account.userId).Some?
      && FirstByUser(rows, account.userId).value.balance >= account.balance
  {
  }

  /** A query fault, or an update fault after the checks pass, is returned wrapped. */
  lemma DeductFaultsWrapped(rows: seq<Account>, account: Account, queryFault: Option<string>, updateFault: Option<string>)
    ensures queryFault.Some? ==>
      DeductOutcome(rows, account, queryFault, updateFault).0 == Some(QueryFailed(queryFault.value))
    ensures queryFault.None? && updateFault.Some? && FirstByUser(rows, account.userId).Some?
            && FirstByUser(rows, account.userId).value.balance >= account.balance ==>
      DeductOutcome(rows, account, queryFault, updateFault).0 == Some(DeductFailed(updateFault.value))
  {
  }

  /**
   * When the user's first row covers the request, every row of the user
   * holds that row's balance minus the request, and every other row is
   * unchanged.
   */
  lemma DeductSuccessEffect(rows: seq<Account>, account: Account, current: Account)
    requires FirstByUser(rows, account.userId) == Some(current)
    requires current.balance >= account.balance
    ensures var after := DeductOutcome(rows, account, None, None).1;
      && |after| == |rows|
      && (forall i :: 0 <= i < |rows| && rows[i].userId == account.userId ==>
            after[i] == rows[i].(balance := Wrap64(current.balance - account.balance)))
      && (forall i :: 0 <= i < |rows| && rows[i].userId != account.userId ==> after[i] == rows[i])
  {
    var b := Wrap64(current.balance - account.balance);
    assert DeductOutcome(rows, account, None, None).1 == SetBalance(rows, account.userId, b);
    SetBalanceRows(rows, account.userId, b);
  }

  /**
   * For a non-negative request the new balance is the old one minus the
   * request, which lies between 0 and the old balance.
   */
  lemma DeductNonNegative(rows: seq<Account>, account: Account)
    requires 0 <= account.balance
    requires DeductOutcome(rows, account, None, None).0.None?
    ensures var before := FirstByUser(rows, account.userId).value.balance;
      forall i :: 0 <= i < |rows| && rows[i].userId == account.userId ==>
        DeductOutcome(rows, account, None, None).1[i].balance == before - account.balance >= 0
  {
  }

  /**
   * The subtraction is done in int64: a negative request against a large
   * balance wraps round to a negative balance.
   */
  lemma DeductNegativeRequestWraps()
    ensures var rows := [Account(1, 7, MaxInt64, 0, 0, 0)];
      var (err, after) := DeductOutcome(rows, Account(0, 7, -1, 0, 0, 0), None, None);
      err.None? && after[0].balance == MinInt64
  {
    var rows := [Account(1, 7, MaxInt64, 0, 0, 0)];
    assert FirstByUser(rows, 7) == Some(rows[0]);
    assert Wrap64(MaxInt64 + 1) == MinInt64;
  }
}
