/**
  Posting deposits and withdrawals to an account: the balance update and,
  on an account's first deposit, the start of its interest schedule.
 */
module Posting {
  import opened Wrappers
  import opened Calendar

  /** The two ways a deposit request can raise before the account is saved. */
  datatype PostingError =
    | DivisionByZero   // interest_calculation_per_year is 0
    | YearOutOfRange   // the interest start date falls outside years 1..9999

  /** The account fields the posting views write back. */
  datatype AccountState = AccountState(
    balance: int,
    initialDepositDate: Option<Timestamp>,
    interestStartDate: Option<Timestamp>)

  /**
    Months from the first deposit to the start of interest:
    `int(12 / perYear)`, a true division truncated toward zero.
   */
  function NextInterestMonths(perYear: int): (r: Result<int, PostingError>)
    ensures r.Err? <==> perYear == 0
    ensures r.Err? ==> r.error == DivisionByZero
    ensures r.Ok? ==> -12 <= r.value <= 12
    ensures perYear > 0 ==> 0 <= r.value && r.value * perYear <= 12 < (r.value + 1) * perYear
    ensures perYear < 0 ==> r.value <= 0 && r.value * perYear <= 12 < (r.value - 1) * perYear
  {
    if perYear == 0 then Err(DivisionByZero)
    else if perYear > 0 then Ok(12 / perYear)
    else Ok(-(12 / -perYear))
  }

  /**
    The saved effect of one deposit request on the account's fields. It
    raises exactly on a first deposit whose rate is zero or whose interest
    start date leaves the datetime year range.
   */
  function ApplyDeposit(s: AccountState, perYear: int, amount: int, now: Timestamp): (r: Result<AccountState, PostingError>)
    ensures r.Err? <==>
      (s.initialDepositDate.None? &&
       (perYear == 0 || AddMonths(now, NextInterestMonths(perYear).value).None?))
    ensures r.Err? ==> (r.error == DivisionByZero <==> perYear == 0)
    ensures r.Ok? ==> r.value.balance == s.balance + amount
  {
    if s.initialDepositDate.None? then
      var months := NextInterestMonths(perYear);
      if months.Err? then Err(months.error)
      else
        var start := AddMonths(now, months.value);
        if start.None? then Err(YearOutOfRange)
        else Ok(AccountState(s.balance + amount, Some(now), start))
    else
      Ok(s.(balance := s.balance + amount))
  }

  /** The saved effect of one withdrawal request: no funds check. */
  function ApplyWithdrawal(s: AccountState, amount: int): AccountState {
    s.(balance := s.balance - amount)
  }

  /** A request handled by one of the posting views. */
  datatype Request = DepositRequest(amount: int, now: Timestamp) | WithdrawalRequest(amount: int)

  /** One request; a deposit that raises leaves the saved account as it was. */
  function Post(s: AccountState, perYear: int, req: Request): AccountState {
    match req
    case DepositRequest(amount, now) =>
      var r := ApplyDeposit(s, perYear, amount, now);
      if r.Ok? then r.value else s
    case WithdrawalRequest(amount) => ApplyWithdrawal(s, amount)
  }

  /** A sequence of requests handled one after the other. */
  function Replay(s: AccountState, perYear: int, reqs: seq<Request>): AccountState
    decreases |reqs|
  {
    if reqs == [] then s else Replay(Post(s, perYear, reqs[0]), perYear, reqs[1..])
  }

  /** Net signed amount of the requests: deposits add, withdrawals subtract. */
  function Net(reqs: seq<Request>): int
    decreases |reqs|
  {
    if reqs == [] then 0
    else (match reqs[0] case DepositRequest(a, _) => a case WithdrawalRequest(a) => -a) + Net(reqs[1..])
  }

  /** Total amount withdrawn by the requests. */
  function Withdrawn(reqs: seq<Request>): int
    decreases |reqs|
  {
    if reqs == [] then 0
    else (if reqs[0].WithdrawalRequest? then reqs[0].amount else 0) + Withdrawn(reqs[1..])
  }

  /** The time of the first deposit request, if any. */
  function FirstDepositTime(reqs: seq<Request>): Option<Timestamp>
    decreases |reqs|
  {
    if reqs == [] then None
    else if reqs[0].DepositRequest? then Some(reqs[0].now)
    else FirstDepositTime(reqs[1..])
  }

  /**
    Every deposit is stamped in years 2..9998 with a valid month, so moving
    it by at most twelve months stays inside years 1..9999.
   */
  predicate ClockInRange(reqs: seq<Request>) {
    forall i :: 0 <= i < |reqs| && reqs[i].DepositRequest? ==>
      2 <= reqs[i].now.date.year <= 9998 && 1 <= reqs[i].now.date.month <= 12
  }

  /** A deposit raises only for a zero rate or a date out of range. */
  lemma DepositSucceeds(s: AccountState, perYear: int, amount: int, now: Timestamp)
    requires perYear != 0 || s.initialDepositDate.Some?
    requires 2 <= now.date.year <= 9998 && 1 <= now.date.month <= 12
    ensures ApplyDeposit(s, perYear, amount, now).Ok?
  {
    if s.initialDepositDate.None? {
      var k := NextInterestMonths(perYear).value;
      assert MonthIndex(Date(MinYear, 1, 1)) <= MonthIndex(now.date) + k <= MonthIndex(Date(MaxYear, 12, 1));
    }
  }

  /**
    The account-balance invariant: as long as no deposit raises, the balance
    moves by exactly the net signed amount of the requests.
   */
  lemma {:induction false} ReplayBalance(s: AccountState, perYear: int, reqs: seq<Request>)
    requires perYear != 0 || s.initialDepositDate.Some?
    requires ClockInRange(reqs)
    ensures Replay(s, perYear, reqs).balance == s.balance + Net(reqs)
    decreases |reqs|
  {
    if reqs != [] {
      var req := reqs[0];
      if req.DepositRequest? {
        DepositSucceeds(s, perYear, req.amount, req.now);
      }
      var s' := Post(s, perYear, req);
      assert ClockInRange(reqs[1..]) by {
        forall i | 0 <= i < |reqs[1..]| && reqs[1..][i].DepositRequest?
          ensures 2 <= reqs[1..][i].now.date.year <= 9998 && 1 <= reqs[1..][i].now.date.month <= 12
        {
          assert reqs[1..][i] == reqs[i + 1];
        }
      }
      ReplayBalance(s', perYear, reqs[1..]);
    }
  }

  /** Once an account has its first deposit, later requests never move its interest schedule. */
  lemma {:induction false} ReplayKeepsSchedule(s: AccountState, perYear: int, reqs: seq<Request>)
    requires s.initialDepositDate.Some?
    ensures Replay(s, perYear, reqs).initialDepositDate == s.initialDepositDate
    ensures Replay(s, perYear, reqs).interestStartDate == s.interestStartDate
    decreases |reqs|
  {
    if reqs != [] {
      ReplayKeepsSchedule(Post(s, perYear, reqs[0]), perYear, reqs[1..]);
    }
  }

  /**
    On an account without deposits, the first deposit fixes the schedule:
    the initial deposit date is that deposit's time and interest starts the
    computed number of months later.
   */
  lemma {:induction false} ReplayFirstDeposit(s: AccountState, perYear: int, reqs: seq<Request>)
    requires s.initialDepositDate.None? && perYear != 0
    requires ClockInRange(reqs)
    ensures Replay(s, perYear, reqs).initialDepositDate == FirstDepositTime(reqs)
    ensures FirstDepositTime(reqs).Some? ==>
      Replay(s, perYear, reqs).interestStartDate == AddMonths(FirstDepositTime(reqs).value, NextInterestMonths(perYear).value)
    ensures FirstDepositTime(reqs).None? ==> Replay(s, perYear, reqs).interestStartDate == s.interestStartDate
    decreases |reqs|
  {
    if reqs != [] {
      var req := reqs[0];
      var s' := Post(s, perYear, req);
      if req.DepositRequest? {
        DepositSucceeds(s, perYear, req.amount, req.now);
        ReplayKeepsSchedule(s', perYear, reqs[1..]);
      } else {
        assert ClockInRange(reqs[1..]) by {
          forall i | 0 <= i < |reqs[1..]| && reqs[1..][i].DepositRequest?
            ensures 2 <= reqs[1..][i].now.date.year <= 9998 && 1 <= reqs[1..][i].now.date.month <= 12
          {
            assert reqs[1..][i] == reqs[i + 1];
          }
        }
        ReplayFirstDeposit(s', perYear, reqs[1..]);
      }
    }
  }

  /**
    With a zero rate every deposit to an account without deposits raises, so
    only the withdrawals reach the balance and the schedule is never set.
   */
  lemma {:induction false} ReplayZeroRate(s: AccountState, reqs: seq<Request>)
    requires s.initialDepositDate.None?
    ensures Replay(s, 0, reqs) == s.(balance := s.balance - Withdrawn(reqs))
    decreases |reqs|
  {
    if reqs != [] {
      var s' := Post(s, 0, reqs[0]);
      ReplayZeroRate(s', reqs[1..]);
    }
  }

  /** With a positive rate, interest never starts before the first deposit. */
  lemma InterestStartsAfterFirstDeposit(s: AccountState, perYear: int, amount: int, now: Timestamp)
    requires s.initialDepositDate.None? && perYear > 0 && ValidDate(now.date)
    requires ApplyDeposit(s, perYear, amount, now).Ok?
    ensures ApplyDeposit(s, perYear, amount, now).value.interestStartDate.Some?
    ensures DateLe(now.date, ApplyDeposit(s, perYear, amount, now).value.interestStartDate.value.date)
  {
    AddMonthsNotEarlier(now, NextInterestMonths(perYear).value);
  }

  /** An account row, updated in place by the deposit and withdrawal views. */
  class Account {
    var balance: int
    var initialDepositDate: Option<Timestamp>
    var interestStartDate: Option<Timestamp>
    /** `interest_calculation_per_year` of the account's type. */
    const interestPerYear: int

    constructor (openingBalance: int, interestPerYear: int)
      ensures balance == openingBalance && this.interestPerYear == interestPerYear
      ensures initialDepositDate.None? && interestStartDate.None?
    {
      balance := openingBalance;
      this.interestPerYear := interestPerYear;
      initialDepositDate := None;
      interestStartDate := None;
    }

    function State(): AccountState
      reads this
    {
      AccountState(balance, initialDepositDate, interestStartDate)
    }

    /**
      A deposit request: on the first deposit set the initial deposit date to
      `now` and the interest start date the computed number of months later;
      then add `amount` to the balance and save. A raise saves nothing.
     */
    method Deposit(amount: int, now: Timestamp) returns (outcome: Outcome<PostingError>)
      modifies this
      ensures outcome.Fail? <==>
        (old(initialDepositDate).None? &&
         (interestPerYear == 0 || AddMonths(now, NextInterestMonths(interestPerYear).value).None?))
      ensures outcome.Fail? ==> unchanged(this)
      ensures outcome.Pass? ==> balance == old(balance) + amount
      ensures outcome.Pass? && old(initialDepositDate).None? ==>
        initialDepositDate == Some(now) &&
        interestStartDate == AddMonths(now, NextInterestMonths(interestPerYear).value)
      ensures old(initialDepositDate).Some? ==>
        initialDepositDate == old(initialDepositDate) && interestStartDate == old(interestStartDate)
      ensures ApplyDeposit(old(State()), interestPerYear, amount, now) ==
        if outcome.Pass? then Ok(State()) else Err(outcome.error)
    {
      if initialDepositDate.None? {
        var months := NextInterestMonths(interestPerYear);
        if months.Err? {
          return Fail(months.error);
        }
        var start := AddMonths(now, months.value);
        if start.None? {
          return Fail(YearOutOfRange);
        }
        initialDepositDate := Some(now);
        interestStartDate := start;
      }
      balance := balance + amount;
      outcome := Pass;
    }

    /** A withdrawal request: subtract `amount` from the balance, which may go negative. */
    method Withdraw(amount: int)
      modifies this
      ensures balance == old(balance) - amount
      ensures initialDepositDate == old(initialDepositDate) && interestStartDate == old(interestStartDate)
      ensures State() == ApplyWithdrawal(old(State()), amount)
    {
      balance := balance - amount;
    }
  }

  /**
    A quarterly account holding 100.00 takes 50.00 on 31 January 2024 and
    then pays out 30.00: interest starts three months on, clamped to 30 April.
   */
  method QuarterlyScenario() {
    var account := new Account(10000, 4);
    var now := Timestamp(Date(2024, 1, 31), 0);
    var outcome := account.Deposit(5000, now);
    assert outcome.Pass?;
    assert account.balance == 15000;
    assert account.interestStartDate == Some(Timestamp(Date(2024, 4, 30), 0));
    account.Withdraw(3000);
    assert account.balance == 12000 && account.initialDepositDate == Some(now);
    var again := account.Deposit(1000, Timestamp(Date(2024, 6, 1), 0));
    assert again.Pass?;
    assert account.initialDepositDate == Some(now) && account.balance == 13000;
  }
}
