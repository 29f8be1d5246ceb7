/**
 * The gRPC adapter in front of the account service
 * (quick_start/account/server/account.go): it parses the user id of the
 * request as a base-10 int64, hands an account carrying the requested
 * amount to the service, and answers with the user id and zero amounts.
 */
module AccountApi {
  import opened Common
  import opened Accounts

  /** pb.AccountDeductRequest */
  datatype DeductRequest = DeductRequest(userId: string, money: Int64)

  /** pb.AccountResponse */
  datatype AccountResponse = AccountResponse(userId: string, balance: Int64, freezeAmount: Int64)

  /** The errors the server returns: its own parse failure, or the service's error unchanged. */
  datatype ServerError = InvalidUserId(input: string) | Service(cause: DeductError)

  /** A sign is accepted only in front of at least one digit. */
  predicate IsSign(c: char)
  {
    c == '+' || c == '-'
  }

  /** The magnitude ParseInt accepts for the given sign: up to 2^63 when negative, 2^63-1 otherwise. */
  predicate InRange(negative: bool, magnitude: nat)
  {
    if negative then magnitude <= -MinInt64 else magnitude <= MaxInt64
  }

  /**
   * strconv.ParseInt(s, 10, 64): an optional sign, then one or more
   * decimal digits (no underscores in base 10), and a value that fits in
   * int64. Anything else is an error, modelled as None.
   */
  function ParseInt64(s: string): (r: Option<Int64>)
    ensures r.Some? ==> |s| > 0 && (AllDigits(s) || (IsSign(s[0]) && |s| > 1 && AllDigits(s[1..])))
    ensures |s| > 0 && AllDigits(s) ==>
              (r.Some? <==> DigitsValue(s) <= MaxInt64) && (r.Some? ==> r.value == DigitsValue(s))
    ensures |s| > 1 && s[0] == '-' && AllDigits(s[1..]) ==>
              (r.Some? <==> DigitsValue(s[1..]) <= -MinInt64) && (r.Some? ==> r.value == -(DigitsValue(s[1..]) as int))
    ensures |s| > 1 && s[0] == '+' && AllDigits(s[1..]) ==>
              (r.Some? <==> DigitsValue(s[1..]) <= MaxInt64) && (r.Some? ==> r.value == DigitsValue(s[1..]))
  {
    if |s| == 0 then None
    else
      var negative := s[0] == '-';
      var digits := if IsSign(s[0]) then s[1..] else s;
      if |digits| == 0 || !AllDigits(digits) then None
      else
        var magnitude := DigitsValue(digits);
        if !InRange(negative, magnitude) then None
        else if negative then Some(-(magnitude as int)) else Some(magnitude)
  }

  /** Every int64, formatted in decimal, parses back to itself. */
  lemma ParseFormatted(n: Int64)
    ensures ParseInt64(IntToDecimal(n)) == Some(n)
  {
    if n < 0 {
      var magnitude: nat := -(n as int);
      assert IntToDecimal(n)[1..] == NatToDecimal(magnitude);
      NatToDecimalRoundTrip(magnitude);
    } else {
      NatToDecimalRoundTrip(n);
    }
  }

  /**
   * Malformed input is rejected: the empty string, and any string with a
   * character that is not a digit, unless it is a sign at the front followed
   * by at least one more character. So a lone sign, an inner sign, white
   * space and the underscores Go allows only with base 0 are all errors.
   */
  lemma ParseRejectsMalformed(s: string, i: nat)
    ensures ParseInt64("") == None
    ensures i < |s| && !IsDigit(s[i]) && !(i == 0 && IsSign(s[0]) && |s| > 1) ==> ParseInt64(s) == None
  {
    if i < |s| && !IsDigit(s[i]) && !(i == 0 && IsSign(s[0]) && |s| > 1) && |s| > 0 {
      if i == 0 {
        assert !AllDigits(s);
      } else if IsSign(s[0]) {
        assert s[1..][i - 1] == s[i];
        assert !AllDigits(s[1..]);
      } else {
        assert !AllDigits(s);
      }
    }
  }

  /** A numeral of a magnitude outside int64 is rejected, whatever its sign. */
  lemma ParseRejectsOutOfRange(n: nat)
    ensures n > MaxInt64 ==> ParseInt64(NatToDecimal(n)) == None
    ensures n > -MinInt64 ==> ParseInt64("-" + NatToDecimal(n)) == None
  {
    NatToDecimalRoundTrip(n);
    assert ("-" + NatToDecimal(n))[1..] == NatToDecimal(n);
  }

  /** The account the server hands to the service: the parsed user and the requested amount, other columns zero. */
  function RequestedAccount(userId: Int64, money: Int64): (a: Account)
    ensures a.userId == userId && a.balance == money
    ensures a.id == 0 && a.freeze == 0 && a.ctime == 0 && a.utime == 0
  {
    Account(0, userId, money, 0, 0, 0)
  }

  class AccountServer {
    const svc: AccountService

    constructor (svc: AccountService)
      ensures this.svc == svc
    {
      this.svc := svc;
    }

    /** The Deduct RPC. */
    method Deduct(request: DeductRequest, queryFault: Option<string>, updateFault: Option<string>)
      returns (response: Option<AccountResponse>, err: Option<ServerError>)
      requires svc.Valid()
      modifies svc
      ensures svc.Valid()
      ensures response.Some? <==> err.None?
      ensures ParseInt64(request.userId).None? ==>
                err == Some(InvalidUserId(request.userId)) && svc.accounts == old(svc.accounts)
      ensures ParseInt64(request.userId).Some? ==>
                var (serviceErr, after) := DeductOutcome(old(svc.accounts),
                  RequestedAccount(ParseInt64(request.userId).value, request.money), queryFault, updateFault);
                && svc.accounts == after
                && (serviceErr.Some? ==> err == Some(Service(serviceErr.value)))
                && (serviceErr.None? ==> response == Some(AccountResponse(request.userId, 0, 0)))
    {
      var userId := ParseInt64(request.userId);
      if userId.None? {
        return None, Some(InvalidUserId(request.userId));
      }
      var account := RequestedAccount(userId.value, request.money);
      var serviceErr := svc.Deduct(account, queryFault, updateFault);
      if serviceErr.Some? {
        return None, Some(Service(serviceErr.value));
      }
      return Some(AccountResponse(request.userId, 0, 0)), None;
    }
  }
}
