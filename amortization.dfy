/**
 The amortization engine of the loan calculator: a month-by-month simulation
 of a fixed-payment loan with an extra monthly payment, an extra yearly
 payment and a one-time balloon payment.

 `Run` and `Schedule` are the reference definition of the schedule, one month
 after another; `CalculateAmortization` is the engine itself, a loop that
 appends rows and accumulates the interest, proved to produce that schedule.
 */
module Amortization {
  import opened Annuity

  /** The inputs of one computation, as the calculator's sidebar supplies them. */
  datatype Loan = Loan(
    principal: real,      // loan amount
    annualRate: real,     // nominal annual interest rate, in percent
    years: int,           // nominal tenure
    extraMonthly: real,   // added to the principal portion every month
    extraYearly: real,    // added to the principal portion every 12th month
    balloonYear: int,     // 0 = no balloon; otherwise the year whose last month carries it
    balloonAmount: real)  // the one-time lump sum

  /** One row of the schedule: Month, EMI, Interest, Principal, Balance. */
  datatype Row = Row(month: int, emi: real, interest: real, principalPart: real, balance: real)

  /** The ranges the sidebar widgets allow for each input. */
  predicate SidebarBounds(loan: Loan)
  {
    && loan.principal >= 0.0
    && loan.annualRate >= 0.1
    && 1 <= loan.years <= 30
    && loan.extraMonthly >= 0.0
    && loan.extraYearly >= 0.0
    && 0 <= loan.balloonYear <= loan.years
    && loan.balloonAmount >= 0.0
  }

  /** What the engine itself needs of its inputs: a positive rate and at least one year. */
  predicate WellFormed(loan: Loan)
  {
    loan.annualRate > 0.0 && loan.years >= 1
  }

  /** The annual percentage rate as a monthly fraction. */
  function MonthlyRate(annualRate: real): real
  {
    annualRate / 12.0 / 100.0
  }

  /** The nominal number of months. */
  function TotalMonths(years: int): int
  {
    years * 12
  }

  /** Whether the balloon is paid in the given month. */
  predicate BalloonDue(loan: Loan, month: int)
  {
    month == loan.balloonYear * 12 && loan.balloonYear > 0
  }

  /** Everything beyond the scheduled payment that goes to principal in the given month. */
  function Extras(loan: Loan, month: int): real
  {
    loan.extraMonthly
    + (if month % 12 == 0 then loan.extraYearly else 0.0)
    + (if BalloonDue(loan, month) then loan.balloonAmount else 0.0)
  }

  function Max(a: real, b: real): real
  {
    if a >= b then a else b
  }

  /** The row of one month that starts with the given balance. */
  function Step(loan: Loan, emi: real, rate: real, month: int, balance: real): Row
  {
    var interest := balance * rate;
    var part := emi - interest + Extras(loan, month);
    Row(month, emi, interest, part, Max(balance - part, 0.0))
  }

  /**
   The rows from `month` up to `last`, starting with `balance`; the rows stop
   right after the first one whose balance is zero.
   */
  function Run(loan: Loan, emi: real, rate: real, month: int, last: int, balance: real): seq<Row>
    decreases last - month + 1
  {
    if month > last then []
    else
      var row := Step(loan, emi, rate, month, balance);
      if row.balance <= 0.0 then [row]
      else [row] + Run(loan, emi, rate, month + 1, last, row.balance)
  }

  /** The fixed payment of a loan, computed once from principal, rate and tenure. */
  function LoanEmi(loan: Loan): real
    requires WellFormed(loan)
  {
    Emi(loan.principal, MonthlyRate(loan.annualRate), TotalMonths(loan.years))
  }

  /** The whole schedule of a loan. */
  function Schedule(loan: Loan): seq<Row>
    requires WellFormed(loan)
  {
    Run(loan, LoanEmi(loan), MonthlyRate(loan.annualRate), 1, TotalMonths(loan.years), loan.principal)
  }

  /** The sum of the interest column. */
  function SumInterest(rows: seq<Row>): real
  {
    if rows == [] then 0.0 else SumInterest(rows[..|rows| - 1]) + rows[|rows| - 1].interest
  }

  /** The sum of the principal column. */
  function SumPrincipal(rows: seq<Row>): real
  {
    if rows == [] then 0.0 else SumPrincipal(rows[..|rows| - 1]) + rows[|rows| - 1].principalPart
  }

  /**
   The engine: simulates the loan month by month, appending one row per month
   and accumulating the interest, and stops after the month that clears the
   balance. It returns exactly the reference schedule and the sum of its
   interest column.
   */
  method CalculateAmortization(loan: Loan) returns (schedule: seq<Row>, totalInterest: real)
    requires WellFormed(loan)
    ensures schedule == Schedule(loan)
    ensures totalInterest == SumInterest(schedule)
  {
    var monthlyRate := MonthlyRate(loan.annualRate);
    var totalMonths := TotalMonths(loan.years);
    var emi := LoanEmi(loan);

    schedule := [];
    var balance := loan.principal;
    totalInterest := 0.0;
    ghost var target := Schedule(loan);
    AppendEmpty(Run(loan, emi, monthlyRate, 1, totalMonths, balance));

    for month := 1 to totalMonths + 1
      invariant schedule + Run(loan, emi, monthlyRate, month, totalMonths, balance) == target
      invariant totalInterest == SumInterest(schedule)
    {
      ghost var before, opening := schedule, balance;
      var interest := balance * monthlyRate;
      var principalPayment := emi - interest;
      totalInterest := totalInterest + interest;

      principalPayment := principalPayment + loan.extraMonthly;
      if month % 12 == 0 {
        principalPayment := principalPayment + loan.extraYearly;
      }

      if month == loan.balloonYear * 12 && loan.balloonYear > 0 {
        principalPayment := principalPayment + loan.balloonAmount;
      }

      balance := balance - principalPayment;
      balance := Max(balance, 0.0);

      var row := Row(month, emi, interest, principalPayment, balance);
      schedule := schedule + [row];
      Advance(loan, emi, monthlyRate, month, totalMonths, opening, before, target, row);

      if balance <= 0.0 {
        break;
      }
    }
    AppendEmpty(schedule);
  }

  /**
   One month of the engine. If the prefix `before` followed by the run from
   `month` is the whole schedule, and `row` is computed as `Step` computes
   it, then the prefix extended by `row` is the whole schedule when `row`
   clears the balance, and is followed by the run from the next month
   otherwise; the interest sum grows by the row's interest.
   */
  lemma Advance(loan: Loan, emi: real, rate: real, month: int, last: int, balance: real,
                before: seq<Row>, target: seq<Row>, row: Row)
    requires month <= last && before + Run(loan, emi, rate, month, last, balance) == target
    requires row.month == month && row.emi == emi && row.interest == balance * rate
    requires row.principalPart == emi - row.interest + Extras(loan, month)
    requires row.balance == Max(balance - row.principalPart, 0.0)
    ensures SumInterest(before + [row]) == SumInterest(before) + row.interest
    ensures row.balance <= 0.0 ==> before + [row] == target
    ensures row.balance > 0.0 ==> (before + [row]) + Run(loan, emi, rate, month + 1, last, row.balance) == target
  {
    assert row == Step(loan, emi, rate, month, balance);
    RunCons(loan, emi, rate, month, last, balance);
    DropLast(before, row);
    AppendAssoc(before, [row], Run(loan, emi, rate, month + 1, last, row.balance));
  }

  /** A run that has a month left starts with that month's row. */
  lemma RunCons(loan: Loan, emi: real, rate: real, month: int, last: int, balance: real)
    requires month <= last
    ensures var row := Step(loan, emi, rate, month, balance);
      Run(loan, emi, rate, month, last, balance)
      == if row.balance <= 0.0 then [row] else [row] + Run(loan, emi, rate, month + 1, last, row.balance)
  {
  }

  lemma DropLast<T>(a: seq<T>, x: T)
    ensures (a + [x])[..|a|] == a && (a + [x])[|a|] == x
  {
  }

  lemma AppendEmpty<T>(a: seq<T>)
    ensures [] + a == a && a + [] == a
  {
  }

  lemma AppendAssoc<T>(a: seq<T>, b: seq<T>, c: seq<T>)
    ensures (a + b) + c == a + (b + c)
  {
  }
}
