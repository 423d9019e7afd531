/**
 What the amortization schedule promises: row numbering and length, the
 stopping rule, the interest and principal columns, the balance clamp, where
 the extra payments land, and the outcome without extras.
 */
module ScheduleProperties {
  import opened Annuity
  import opened Amortization

  /** The balance a row starts from: the loan's start for the first row, else the previous row's balance. */
  function Opening(start: real, rows: seq<Row>, i: int): real
    requires 0 <= i <= |rows|
  {
    if i == 0 then start else rows[i - 1].balance
  }

  // ---------------------------------------------------------------------------
  // The rows of a run, one month at a time
  // ---------------------------------------------------------------------------

  /**
   Every row of a run is the month computed from the balance before it, and
   so the months are consecutive from the first.
   */
  lemma {:induction false} RunSteps(loan: Loan, emi: real, rate: real, month: int, last: int, balance: real)
    ensures forall i {:trigger Opening(balance, Run(loan, emi, rate, month, last, balance), i)}
      | 0 <= i < |Run(loan, emi, rate, month, last, balance)| ::
        Run(loan, emi, rate, month, last, balance)[i]
        == Step(loan, emi, rate, month + i, Opening(balance, Run(loan, emi, rate, month, last, balance), i))
    decreases last - month + 1
  {
    var s := Run(loan, emi, rate, month, last, balance);
    if month <= last {
      var row := Step(loan, emi, rate, month, balance);
      if row.balance > 0.0 {
        var rest := Run(loan, emi, rate, month + 1, last, row.balance);
        RunSteps(loan, emi, rate, month + 1, last, row.balance);
        ConsSteps(loan, emi, rate, month, balance, row, rest, s);
      }
    }
  }

  lemma ConsSteps(loan: Loan, emi: real, rate: real, month: int, balance: real, row: Row, rest: seq<Row>, s: seq<Row>)
    requires row == Step(loan, emi, rate, month, balance) && s == [row] + rest
    requires forall i {:trigger Opening(row.balance, rest, i)} | 0 <= i < |rest| ::
      rest[i] == Step(loan, emi, rate, month + 1 + i, Opening(row.balance, rest, i))
    ensures forall i {:trigger Opening(balance, s, i)} | 0 <= i < |s| ::
        s[i] == Step(loan, emi, rate, month + i, Opening(balance, s, i))
  {
    forall i | 0 <= i < |s|
      ensures s[i] == Step(loan, emi, rate, month + i, Opening(balance, s, i))
    {
      if i > 0 {
        assert s[i] == rest[i - 1];
        assert Opening(row.balance, rest, i - 1) == Opening(balance, s, i);
      }
    }
  }

  /**
   A run has at most as many rows as months left and at least one when a
   month is left; every row but the last keeps a positive balance, and a run
   that ends before its last month ends on a balance that is not positive.
   */
  lemma {:induction false} RunShape(loan: Loan, emi: real, rate: real, month: int, last: int, balance: real)
    requires month <= last + 1
    ensures var s := Run(loan, emi, rate, month, last, balance);
      && |s| <= last + 1 - month
      && (month <= last ==> |s| >= 1)
      && (forall i | 0 <= i < |s| - 1 :: s[i].balance > 0.0)
      && (0 < |s| < last + 1 - month ==> s[|s| - 1].balance <= 0.0)
    decreases last - month + 1
  {
    var s := Run(loan, emi, rate, month, last, balance);
    if month <= last {
      var row := Step(loan, emi, rate, month, balance);
      if row.balance > 0.0 {
        var rest := Run(loan, emi, rate, month + 1, last, row.balance);
        RunShape(loan, emi, rate, month + 1, last, row.balance);
        assert s == [row] + rest;
        forall i | 1 <= i < |s| - 1
          ensures s[i].balance > 0.0
        {
          assert s[i] == rest[i - 1];
        }
      }
    }
  }

  /** The shape of a whole schedule, as `RunShape` gives it for the loan's first month. */
  lemma ScheduleShape(loan: Loan)
    requires WellFormed(loan)
    ensures 1 <= |Schedule(loan)| <= TotalMonths(loan.years)
    ensures forall i | 0 <= i < |Schedule(loan)| - 1 :: Schedule(loan)[i].balance > 0.0
    ensures |Schedule(loan)| < TotalMonths(loan.years) ==> Schedule(loan)[|Schedule(loan)| - 1].balance <= 0.0
  {
    RunShape(loan, LoanEmi(loan), MonthlyRate(loan.annualRate), 1, TotalMonths(loan.years), loan.principal);
  }

  /** Row i of a schedule is month i + 1 computed from the balance the row starts from. */
  lemma ScheduleStep(loan: Loan, i: int)
    requires WellFormed(loan) && 0 <= i < |Schedule(loan)|
    ensures Schedule(loan)[i]
            == Step(loan, LoanEmi(loan), MonthlyRate(loan.annualRate), i + 1, Opening(loan.principal, Schedule(loan), i))
  {
    RunSteps(loan, LoanEmi(loan), MonthlyRate(loan.annualRate), 1, TotalMonths(loan.years), loan.principal);
    assert Schedule(loan)[i]
           == Step(loan, LoanEmi(loan), MonthlyRate(loan.annualRate), 1 + i, Opening(loan.principal, Schedule(loan), i));
  }

  /** The columns of row i, as `ScheduleStep` gives them. */
  lemma ScheduleRow(loan: Loan, i: int)
    requires WellFormed(loan) && 0 <= i < |Schedule(loan)|
    ensures Schedule(loan)[i].month == i + 1
    ensures Schedule(loan)[i].emi == LoanEmi(loan)
    ensures Schedule(loan)[i].interest == Opening(loan.principal, Schedule(loan), i) * MonthlyRate(loan.annualRate)
    ensures Schedule(loan)[i].principalPart
            == Schedule(loan)[i].emi - Schedule(loan)[i].interest + Extras(loan, i + 1)
    ensures Schedule(loan)[i].balance
            == Max(Opening(loan.principal, Schedule(loan), i) - Schedule(loan)[i].principalPart, 0.0)
  {
    ScheduleStep(loan, i);
  }

  // ---------------------------------------------------------------------------
  // Numbering, balances and the stopping rule
  // ---------------------------------------------------------------------------

  /** Rows are numbered 1, 2, 3, ... without gaps, there is at least one, and never more than years * 12. */
  lemma ScheduleMonths(loan: Loan)
    requires WellFormed(loan)
    ensures 1 <= |Schedule(loan)| <= loan.years * 12
    ensures forall i | 0 <= i < |Schedule(loan)| :: Schedule(loan)[i].month == i + 1
  {
    ScheduleShape(loan);
    forall i | 0 <= i < |Schedule(loan)|
      ensures Schedule(loan)[i].month == i + 1
    {
      ScheduleRow(loan, i);
    }
  }

  /** No recorded balance is negative. */
  lemma BalancesNonNegative(loan: Loan)
    requires WellFormed(loan)
    ensures forall i | 0 <= i < |Schedule(loan)| :: Schedule(loan)[i].balance >= 0.0
  {
    forall i | 0 <= i < |Schedule(loan)|
      ensures Schedule(loan)[i].balance >= 0.0
    {
      ScheduleRow(loan, i);
    }
  }

  /**
   The schedule stops at the first month whose balance is zero: every earlier
   row keeps a positive balance, and a schedule shorter than years * 12 ends
   on a zero balance.
   */
  lemma StopsAtFirstZero(loan: Loan)
    requires WellFormed(loan)
    ensures forall i | 0 <= i < |Schedule(loan)| - 1 :: Schedule(loan)[i].balance > 0.0
    ensures |Schedule(loan)| < loan.years * 12 ==> Schedule(loan)[|Schedule(loan)| - 1].balance == 0.0
  {
    ScheduleShape(loan);
    ScheduleRow(loan, |Schedule(loan)| - 1);
  }

  // ---------------------------------------------------------------------------
  // The columns of a row
  // ---------------------------------------------------------------------------

  /**
   Each row's interest is the monthly rate on the balance it starts from: the
   principal for month 1, the previous row's balance afterwards.
   */
  lemma InterestOnOpeningBalance(loan: Loan)
    requires WellFormed(loan)
    ensures forall i {:trigger Opening(loan.principal, Schedule(loan), i)} | 0 <= i < |Schedule(loan)| ::
      Schedule(loan)[i].interest == Opening(loan.principal, Schedule(loan), i) * MonthlyRate(loan.annualRate)
  {
    forall i | 0 <= i < |Schedule(loan)|
      ensures Schedule(loan)[i].interest == Opening(loan.principal, Schedule(loan), i) * MonthlyRate(loan.annualRate)
    {
      ScheduleRow(loan, i);
    }
  }

  /** The EMI column holds the same value in every row: the level payment of the loan. */
  lemma EmiConstant(loan: Loan)
    requires WellFormed(loan)
    ensures forall i | 0 <= i < |Schedule(loan)| ::
      Schedule(loan)[i].emi == Emi(loan.principal, loan.annualRate / 12.0 / 100.0, loan.years * 12)
  {
    forall i | 0 <= i < |Schedule(loan)|
      ensures Schedule(loan)[i].emi == Emi(loan.principal, loan.annualRate / 12.0 / 100.0, loan.years * 12)
    {
      ScheduleRow(loan, i);
    }
  }

  /**
   A row's principal portion is the EMI less the interest, plus the extra
   monthly payment, plus the extra yearly payment in every 12th month, plus
   the balloon in month balloonYear * 12 when a balloon year is set.
   */
  lemma PrincipalPortion(loan: Loan)
    requires WellFormed(loan)
    ensures forall i | 0 <= i < |Schedule(loan)| ::
      var row := Schedule(loan)[i];
      row.principalPart
        == row.emi - row.interest + loan.extraMonthly
           + (if row.month % 12 == 0 then loan.extraYearly else 0.0)
           + (if loan.balloonYear > 0 && row.month == loan.balloonYear * 12 then loan.balloonAmount else 0.0)
  {
    forall i | 0 <= i < |Schedule(loan)|
      ensures var row := Schedule(loan)[i];
        row.principalPart
          == row.emi - row.interest + loan.extraMonthly
             + (if row.month % 12 == 0 then loan.extraYearly else 0.0)
             + (if loan.balloonYear > 0 && row.month == loan.balloonYear * 12 then loan.balloonAmount else 0.0)
    {
      ScheduleRow(loan, i);
    }
  }

  /**
   The recorded principal portion is not clamped; only the balance is: each
   balance is the opening balance less the principal portion, or zero when
   that would be negative. A portion that overshoots is recorded in full.
   */
  lemma BalanceClamp(loan: Loan)
    requires WellFormed(loan)
    ensures forall i {:trigger Opening(loan.principal, Schedule(loan), i)} | 0 <= i < |Schedule(loan)| ::
      Schedule(loan)[i].balance == Max(Opening(loan.principal, Schedule(loan), i) - Schedule(loan)[i].principalPart, 0.0)
    ensures forall i {:trigger Opening(loan.principal, Schedule(loan), i)} | 0 <= i < |Schedule(loan)| ::
      Schedule(loan)[i].balance == 0.0 ==> Schedule(loan)[i].principalPart >= Opening(loan.principal, Schedule(loan), i)
  {
    forall i | 0 <= i < |Schedule(loan)|
      ensures Schedule(loan)[i].balance
              == Max(Opening(loan.principal, Schedule(loan), i) - Schedule(loan)[i].principalPart, 0.0)
    {
      ScheduleRow(loan, i);
    }
  }

  // ---------------------------------------------------------------------------
  // Where the balloon lands
  // ---------------------------------------------------------------------------

  /** The balloon is added in at most one row. */
  lemma BalloonAtMostOnce(loan: Loan)
    requires WellFormed(loan)
    ensures forall i, j | 0 <= i < j < |Schedule(loan)| ::
      !(BalloonDue(loan, Schedule(loan)[i].month) && BalloonDue(loan, Schedule(loan)[j].month))
  {
    ScheduleMonths(loan);
  }

  /**
   When a balloon year is set and the schedule reaches its last month, that
   row carries the balloon together with the extra yearly payment.
   */
  lemma BalloonLands(loan: Loan)
    requires WellFormed(loan)
    requires loan.balloonYear > 0 && loan.balloonYear * 12 <= |Schedule(loan)|
    ensures var row := Schedule(loan)[loan.balloonYear * 12 - 1];
      && row.month == loan.balloonYear * 12
      && row.principalPart
           == row.emi - row.interest + loan.extraMonthly + loan.extraYearly + loan.balloonAmount
  {
    ScheduleRow(loan, loan.balloonYear * 12 - 1);
  }

  // ---------------------------------------------------------------------------
  // The principal column against the principal
  // ---------------------------------------------------------------------------

  /**
   The principal column adds up to at least the principal less the final
   balance, and to exactly that when no row's portion overshoots its opening
   balance.
   */
  lemma PrincipalAccounting(loan: Loan)
    requires WellFormed(loan)
    ensures SumPrincipal(Schedule(loan)) >= loan.principal - Schedule(loan)[|Schedule(loan)| - 1].balance
    ensures (forall i | 0 <= i < |Schedule(loan)| ::
               Schedule(loan)[i].principalPart <= Opening(loan.principal, Schedule(loan), i))
            ==> SumPrincipal(Schedule(loan)) == loan.principal - Schedule(loan)[|Schedule(loan)| - 1].balance
  {
    var s := Schedule(loan);
    ScheduleShape(loan);
    BalanceClamp(loan);
    PrefixAccounting(s, loan.principal, |s|);
    assert s[..|s|] == s;
  }

  lemma {:induction false} PrefixAccounting(s: seq<Row>, start: real, j: int)
    requires 0 <= j <= |s|
    requires forall i {:trigger Opening(start, s, i)} | 0 <= i < |s| ::
      s[i].balance == Max(Opening(start, s, i) - s[i].principalPart, 0.0)
    ensures SumPrincipal(s[..j]) >= start - Opening(start, s, j)
    ensures (forall i | 0 <= i < j :: s[i].principalPart <= Opening(start, s, i))
            ==> SumPrincipal(s[..j]) == start - Opening(start, s, j)
  {
    if j > 0 {
      PrefixAccounting(s, start, j - 1);
      assert s[..j][..j - 1] == s[..j - 1];
      assert s[..j][j - 1] == s[j - 1];
      assert s[j - 1].balance == Max(Opening(start, s, j - 1) - s[j - 1].principalPart, 0.0);
    }
  }

  /**
   The overshoot is real: a loan of 100 at 12 % over one year with an extra
   1000 a month is cleared in the first month, and its principal column adds
   up to more than the principal.
   */
  lemma OvershootExceedsPrincipal()
    ensures var loan := Loan(100.0, 12.0, 1, 1000.0, 0.0, 0, 0.0);
      && SidebarBounds(loan)
      && |Schedule(loan)| == 1
      && Schedule(loan)[0].balance == 0.0
      && SumPrincipal(Schedule(loan)) > loan.principal
  {
    var loan := Loan(100.0, 12.0, 1, 1000.0, 0.0, 0, 0.0);
    var s := Schedule(loan);
    var emi := LoanEmi(loan);
    assert MonthlyRate(loan.annualRate) == 0.01;
    EmiCoversInterest(100.0, 0.01, 12, emi);
    assert emi >= 1.0;
    var row := Step(loan, emi, 0.01, 1, 100.0);
    assert row.principalPart >= 1000.0;
    assert s == [row];
    assert s[..0] == [];
  }

  // ---------------------------------------------------------------------------
  // Balances never grow when the extras are not negative
  // ---------------------------------------------------------------------------

  lemma MulMonotone(a: real, b: real, c: real)
    requires a <= b && c >= 0.0
    ensures a * c <= b * c
  {
    assert b * c - a * c == (b - a) * c;
  }

  /** A month that starts within the principal pays a principal portion that is not negative. */
  lemma PortionNonNegative(loan: Loan, i: int)
    requires SidebarBounds(loan) && 0 <= i < |Schedule(loan)|
    requires 0.0 <= Opening(loan.principal, Schedule(loan), i) <= loan.principal
    ensures Schedule(loan)[i].principalPart >= 0.0
    ensures Schedule(loan)[i].balance <= Opening(loan.principal, Schedule(loan), i)
  {
    ScheduleStep(loan, i);
    StepWithinOpening(loan, i + 1, Opening(loan.principal, Schedule(loan), i));
  }

  /** The same for one month of the loan that starts from any balance between zero and the principal. */
  lemma StepWithinOpening(loan: Loan, month: int, opening: real)
    requires SidebarBounds(loan) && 0.0 <= opening <= loan.principal
    ensures Step(loan, LoanEmi(loan), MonthlyRate(loan.annualRate), month, opening).principalPart >= 0.0
    ensures Step(loan, LoanEmi(loan), MonthlyRate(loan.annualRate), month, opening).balance <= opening
  {
    var emi, rate := LoanEmi(loan), MonthlyRate(loan.annualRate);
    EmiCoversInterest(loan.principal, rate, TotalMonths(loan.years), emi);
    StepWithinBound(loan, emi, rate, month, opening);
  }

  lemma StepWithinBound(loan: Loan, emi: real, rate: real, month: int, opening: real)
    requires emi >= loan.principal * rate && 0.0 <= opening <= loan.principal
    requires rate >= 0.0 && Extras(loan, month) >= 0.0
    ensures Step(loan, emi, rate, month, opening).principalPart >= 0.0
    ensures Step(loan, emi, rate, month, opening).balance <= opening
  {
    MulMonotone(opening, loan.principal, rate);
  }

  /** Every row starts from a balance between zero and the principal. */
  lemma {:induction false} OpeningWithinPrincipal(loan: Loan, i: int)
    requires SidebarBounds(loan) && 0 <= i <= |Schedule(loan)|
    ensures 0.0 <= Opening(loan.principal, Schedule(loan), i) <= loan.principal
  {
    if i > 0 {
      OpeningWithinPrincipal(loan, i - 1);
      PortionNonNegative(loan, i - 1);
      ScheduleRow(loan, i - 1);
    }
  }

  /** Within the sidebar's ranges the balance never grows from one row to the next, nor above the principal. */
  lemma BalancesNonIncreasing(loan: Loan)
    requires SidebarBounds(loan)
    ensures WellFormed(loan)
    ensures forall i | 0 <= i < |Schedule(loan)| ::
      Schedule(loan)[i].balance <= Opening(loan.principal, Schedule(loan), i) <= loan.principal
  {
    forall i | 0 <= i < |Schedule(loan)|
      ensures Schedule(loan)[i].balance <= Opening(loan.principal, Schedule(loan), i) <= loan.principal
    {
      OpeningWithinPrincipal(loan, i);
      PortionNonNegative(loan, i);
    }
  }


  // ---------------------------------------------------------------------------
  // The principal is always repaid
  // ---------------------------------------------------------------------------

  /**
   Within the sidebar's ranges the schedule always ends on a zero balance: the
   loan is fully repaid, whether the extras shorten the schedule or not, and
   the principal column adds up to at least the principal.
   */
  lemma FinalBalanceZero(loan: Loan)
    requires SidebarBounds(loan)
    ensures WellFormed(loan)
    ensures Schedule(loan)[|Schedule(loan)| - 1].balance == 0.0
    ensures SumPrincipal(Schedule(loan)) >= loan.principal
  {
    var r, n := MonthlyRate(loan.annualRate), TotalMonths(loan.years);
    ScheduleShape(loan);
    StopsAtFirstZero(loan);
    BalancesNonNegative(loan);
    if |Schedule(loan)| == n {
      RunBelowLevel(loan, LoanEmi(loan), r, n, 1, loan.principal, 0);
      LevelBalancePaidOff(loan.principal, r, n, n);
    }
    PrincipalAccounting(loan);
  }

  /**
   Within the sidebar's ranges a run that starts from at most the level
   balance after k months ends, after j rows, on at most the level balance
   after k + j months.
   */
  lemma {:induction false} RunBelowLevel(loan: Loan, e: real, r: real, n: nat, month: int, balance: real, k: nat)
    requires SidebarBounds(loan) && r > 0.0 && n >= 1 && e == Emi(loan.principal, r, n)
    requires month == k + 1 && 0.0 <= balance <= LevelBalance(loan.principal, r, e, k)
    ensures |Run(loan, e, r, month, n, balance)| > 0 ==>
      Run(loan, e, r, month, n, balance)[|Run(loan, e, r, month, n, balance)| - 1].balance
      <= LevelBalance(loan.principal, r, e, k + |Run(loan, e, r, month, n, balance)|)
    decreases n - month + 1
  {
    if month <= n {
      var row := Step(loan, e, r, month, balance);
      LevelBalanceNonNegative(loan.principal, r, n, k + 1);
      StepBelowLevel(loan, e, r, month, balance, k);
      RunCons(loan, e, r, month, n, balance);
      if row.balance > 0.0 {
        var rest := Run(loan, e, r, month + 1, n, row.balance);
        RunBelowLevel(loan, e, r, n, month + 1, row.balance, k + 1);
        if |rest| > 0 {
          assert Run(loan, e, r, month, n, balance)[|rest|] == rest[|rest| - 1];
        }
      }
    }
  }

  /** One month from at most the level balance ends on at most the next level balance, when that is not negative. */
  lemma StepBelowLevel(loan: Loan, e: real, r: real, month: int, balance: real, k: nat)
    requires r >= 0.0 && Extras(loan, month) >= 0.0
    requires 0.0 <= balance <= LevelBalance(loan.principal, r, e, k)
    requires LevelBalance(loan.principal, r, e, k + 1) >= 0.0
    ensures Step(loan, e, r, month, balance).balance <= LevelBalance(loan.principal, r, e, k + 1)
  {
    MulMonotone(balance, LevelBalance(loan.principal, r, e, k), 1.0 + r);
  }

  /** Level payments never drive the balance below zero before the end of the term. */
  lemma LevelBalanceNonNegative(principal: real, r: real, n: nat, k: nat)
    requires principal >= 0.0 && r > 0.0 && n >= 1 && k <= n
    ensures LevelBalance(principal, r, Emi(principal, r, n), k) >= 0.0
  {
    LevelBalancePaidOff(principal, r, n, k);
    if principal == 0.0 {
      EmiCoversInterest(principal, r, n, Emi(principal, r, n));
      ZeroLevelBalance(r, k);
    }
  }

  /** A zero principal with a zero payment stays at zero. */
  lemma {:induction false} ZeroLevelBalance(r: real, k: nat)
    ensures LevelBalance(0.0, r, 0.0, k) == 0.0
  {
    if k > 0 {
      ZeroLevelBalance(r, k - 1);
    }
  }

  // ---------------------------------------------------------------------------
  // Extra payments never lengthen the schedule
  // ---------------------------------------------------------------------------

  /**
   Two runs with the same payment and rate, the second starting from no more
   and paying at least as much extra every month: the second is no longer.
   */
  lemma {:induction false} RunLengthAntitone(loan: Loan, more: Loan, emi: real, rate: real, month: int, last: int,
                                             balance: real, balance': real)
    requires rate >= 0.0 && 0.0 <= balance' <= balance
    requires forall m :: Extras(more, m) >= Extras(loan, m)
    ensures |Run(more, emi, rate, month, last, balance')| <= |Run(loan, emi, rate, month, last, balance)|
    decreases last - month + 1
  {
    if month <= last {
      var row := Step(loan, emi, rate, month, balance);
      var row' := Step(more, emi, rate, month, balance');
      assert Extras(more, month) >= Extras(loan, month);
      RawMonotone(balance, balance', rate, emi, Extras(loan, month), Extras(more, month));
      assert row'.balance <= row.balance;
      if row.balance > 0.0 && row'.balance > 0.0 {
        RunLengthAntitone(loan, more, emi, rate, month + 1, last, row.balance, row'.balance);
      }
    }
  }

  lemma RawMonotone(b: real, b': real, r: real, e: real, x: real, x': real)
    requires 0.0 <= b' <= b && r >= 0.0 && x <= x'
    ensures b' - (e - b' * r + x') <= b - (e - b * r + x)
  {
    MulMonotone(b', b, r);
  }

  /**
   Paying more extra (monthly, yearly or as the balloon), with everything else
   the same, never makes the schedule longer.
   */
  lemma MoreExtrasNeverLonger(loan: Loan, more: Loan)
    requires SidebarBounds(loan) && SidebarBounds(more)
    requires more.principal == loan.principal && more.annualRate == loan.annualRate
    requires more.years == loan.years && more.balloonYear == loan.balloonYear
    requires more.extraMonthly >= loan.extraMonthly && more.extraYearly >= loan.extraYearly
    requires more.balloonAmount >= loan.balloonAmount
    ensures |Schedule(more)| <= |Schedule(loan)|
  {
    assert LoanEmi(more) == LoanEmi(loan);
    RunLengthAntitone(loan, more, LoanEmi(loan), MonthlyRate(loan.annualRate), 1, TotalMonths(loan.years),
                      loan.principal, loan.principal);
  }

  // ---------------------------------------------------------------------------
  // Without extras the EMI retires the loan exactly on time
  // ---------------------------------------------------------------------------

  /** No extra monthly or yearly payment and no balloon. */
  predicate NoExtras(loan: Loan)
  {
    loan.extraMonthly == 0.0 && loan.extraYearly == 0.0 && (loan.balloonYear == 0 || loan.balloonAmount == 0.0)
  }

  /**
   From month k + 1 on, a run of a loan without extras that starts from the
   level balance after k months follows the level balance to the end of the
   term, one row per month.
   */
  lemma {:induction false} RunLevel(loan: Loan, r: real, n: nat, k: nat)
    requires NoExtras(loan) && loan.principal > 0.0 && r > 0.0 && n >= 1 && k < n
    ensures var e := Emi(loan.principal, r, n);
      var s := Run(loan, e, r, k + 1, n, LevelBalance(loan.principal, r, e, k));
      && |s| == n - k
      && forall i | 0 <= i < |s| :: s[i].balance == LevelBalance(loan.principal, r, e, k + 1 + i)
    decreases n - k
  {
    var p := loan.principal;
    var e := Emi(p, r, n);
    var s := Run(loan, e, r, k + 1, n, LevelBalance(p, r, e, k));
    var row := Step(loan, e, r, k + 1, LevelBalance(p, r, e, k));
    assert Extras(loan, k + 1) == 0.0;
    LevelRow(loan, r, e, k, k + 1);
    LevelBalancePaidOff(p, r, n, k + 1);
    assert row.balance == LevelBalance(p, r, e, k + 1);
    if k + 1 < n {
      var rest := Run(loan, e, r, k + 2, n, row.balance);
      RunLevel(loan, r, n, k + 1);
      assert s == [row] + rest;
      forall i | 1 <= i < |s|
        ensures s[i].balance == LevelBalance(p, r, e, k + 1 + i)
      {
        assert s[i] == rest[i - 1];
      }
    }
  }

  /**
   A month without extras that starts from the level balance after k months
   ends on the level balance after k + 1 months, clamped at zero.
   */
  lemma LevelRow(loan: Loan, r: real, e: real, k: nat, month: int)
    requires Extras(loan, month) == 0.0
    ensures Step(loan, e, r, month, LevelBalance(loan.principal, r, e, k)).balance
            == Max(LevelBalance(loan.principal, r, e, k + 1), 0.0)
  {
    var b := LevelBalance(loan.principal, r, e, k);
    assert b * (1.0 + r) == b + b * r;
  }

  /**
   With no extras and a positive principal the schedule runs the full
   years * 12 months, month m ending on the closed-form level balance, positive
   before the last month and exactly zero after it.
   */
  lemma NoExtrasFullTerm(loan: Loan)
    requires WellFormed(loan) && NoExtras(loan) && loan.principal > 0.0
    ensures |Schedule(loan)| == loan.years * 12
    ensures forall i | 0 <= i < |Schedule(loan)| ::
      Schedule(loan)[i].balance == LevelBalance(loan.principal, MonthlyRate(loan.annualRate), LoanEmi(loan), i + 1)
    ensures forall i | 0 <= i < |Schedule(loan)| - 1 :: Schedule(loan)[i].balance > 0.0
    ensures Schedule(loan)[|Schedule(loan)| - 1].balance == 0.0
  {
    ScheduleLevel(loan);
    StopsAtFirstZero(loan);
    var last := |Schedule(loan)| - 1;
    assert Schedule(loan)[last].balance
           == LevelBalance(loan.principal, MonthlyRate(loan.annualRate), LoanEmi(loan), last + 1);
    LevelBalancePaidOff(loan.principal, MonthlyRate(loan.annualRate), TotalMonths(loan.years), last + 1);
  }

  /** Without extras, row i of the schedule ends on the level balance after i + 1 months. */
  lemma ScheduleLevel(loan: Loan)
    requires WellFormed(loan) && NoExtras(loan) && loan.principal > 0.0
    ensures |Schedule(loan)| == TotalMonths(loan.years)
    ensures forall i | 0 <= i < |Schedule(loan)| ::
      Schedule(loan)[i].balance == LevelBalance(loan.principal, MonthlyRate(loan.annualRate), LoanEmi(loan), i + 1)
  {
    RunLevel(loan, MonthlyRate(loan.annualRate), TotalMonths(loan.years), 0);
  }

  /** A zero principal (the sidebar allows it) gives a zero EMI and a single row that clears the loan. */
  lemma ZeroPrincipalSingleRow(loan: Loan)
    requires SidebarBounds(loan) && loan.principal == 0.0
    ensures WellFormed(loan)
    ensures |Schedule(loan)| == 1
    ensures Schedule(loan)[0].emi == 0.0 && Schedule(loan)[0].interest == 0.0
    ensures Schedule(loan)[0].balance == 0.0
  {
    var rate := MonthlyRate(loan.annualRate);
    EmiCoversInterest(0.0, rate, TotalMonths(loan.years), LoanEmi(loan));
    var row := Step(loan, LoanEmi(loan), rate, 1, 0.0);
    assert row.principalPart >= 0.0;
    assert Schedule(loan) == [row];
  }
}
