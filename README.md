# Loan amortization engine, modelled in Dafny

The loan calculator turns seven inputs into an amortization schedule and the
total interest paid:

- a principal;
- an annual interest rate in percent;
- a tenure in years;
- an extra monthly payment;
- an extra yearly payment;
- a balloon year (0 = none);
- a balloon amount.

The engine works as follows:

1. It derives the monthly rate (annual rate / 12 / 100) and the nominal number
   of months (years * 12).
2. It computes the fixed monthly payment (EMI) once, by the annuity formula.
3. It simulates the loan month by month. Each month:
   - the interest is the balance times the monthly rate;
   - the principal portion is the EMI less that interest;
   - the extra monthly payment is added to the principal portion;
   - every 12th month the extra yearly payment is added too;
   - in month `balloon_year * 12`, when a balloon year is set, the balloon
     amount is added as well;
   - the balance drops by the principal portion and is clamped at zero;
   - the row `[month, EMI, interest, principal portion, balance]` is recorded;
   - the loop stops after the first month whose balance is not positive.

This project models that engine over exact real arithmetic. It has three files:

- `annuity.dfy` (module `Annuity`):
  - the level payment `Emi`, the closed annuity formula
    `P * r * (1+r)^n / ((1+r)^n - 1)`;
  - the balance `LevelBalance` that level payments leave after k months;
  - the algebra behind it: the payment is at least one month's interest on the
    principal, the closed form of the balance, and exact payoff after n months.
- `amortization.dfy` (module `Amortization`):
  - the `Loan` and `Row` datatypes;
  - the reference definition of the schedule: `Step` (one month), `Run`
    (months from a given one on, stopping after the first zero balance) and
    `Schedule`;
  - the column sums `SumInterest` and `SumPrincipal`;
  - the engine itself, `CalculateAmortization`. It is a `for` loop with the
    source's `break`, appending rows and accumulating interest in the source's
    order. It is proved to return exactly `Schedule(loan)` and the sum of its
    interest column.
- `schedule_properties.dfy` (module `ScheduleProperties`): what the schedule
  promises.
  - row numbering and length;
  - the stopping rule;
  - interest charged on the opening balance;
  - a constant EMI;
  - the principal-portion formula and where the extras and the balloon land;
  - the clamp on the balance, which leaves the principal column unclamped;
  - under the sidebar's input ranges, balances that never grow;
  - extra payments never lengthen the schedule;
  - without extras, the loan runs the full term and ends exactly at zero;
  - within the sidebar's ranges, every schedule ends on a zero balance.

The engine has no error path. It requires only a positive rate and at least
one year (`WellFormed`), which keep its arithmetic defined. The sidebar
allows a zero principal (Loan_app.py:47); `ZeroPrincipalSingleRow` states the
outcome.

## Model

| member | source | states |
|---|---|---|
| Amortization.CalculateAmortization | Loan_app.py:8-40 | the loop returns exactly the reference schedule: rows from month 1, each computed from the previous balance, ending right after the first zero balance or at month years*12; the total interest returned is the sum of the interest column |
| Amortization.Advance | Loan_app.py:17-37 | one iteration: appending the month's row to the rows so far keeps them a prefix of the schedule (the whole schedule once the balance reaches zero), and the interest total grows by that row's interest |
| Annuity.EmiCoversInterest | Loan_app.py:11 | the fixed payment is at least one month's interest on the whole principal, and is zero for a zero principal |
| Annuity.EmiScaled | Loan_app.py:11 | the fixed payment times ((1+r)^n - 1) equals principal * r * (1+r)^n, the defining equation of the annuity payment |
| Annuity.LevelBalanceClosedForm | Loan_app.py:18-32 | r times the balance after k level payments equals r * principal * (1+r)^k less the payment times ((1+r)^k - 1) |
| Annuity.LevelBalancePaidOff | Loan_app.py:11 | the fixed payment retires the loan exactly: without extras the balance is exactly zero after n months and, for a positive principal, positive before |
| Annuity.PaymentRetires | Loan_app.py:11 | any payment satisfying the annuity equation brings the level balance to zero at month n and keeps it positive before |
| Annuity.PowStrictlyIncreasing | Loan_app.py:11 | for a growth factor above 1 the powers (1+r)^k grow strictly with k, so the formula's denominator is positive |
| ScheduleProperties.RunSteps | Loan_app.py:17-34 | every row of a run is that month's computation from the balance the row starts with, the months being consecutive |
| ScheduleProperties.RunShape | Loan_app.py:17-37 | a run has at most as many rows as months left, at least one when a month is left; every row but the last has a positive balance; a run that stops early ends on a balance that is not positive |
| ScheduleProperties.ScheduleStep | Loan_app.py:17-34 | row i of the schedule is month i+1 computed from the principal (first row) or the previous row's balance |
| ScheduleProperties.ScheduleRow | Loan_app.py:18-34 | the columns of row i: month i+1, the fixed EMI, interest on the opening balance, the principal portion with its extras, the clamped balance |
| ScheduleProperties.ScheduleMonths | Loan_app.py:10-17 | rows are numbered 1, 2, 3, ... without gaps; there is at least one and never more than years*12 |
| ScheduleProperties.BalancesNonNegative | Loan_app.py:31-32 | no recorded balance is negative |
| ScheduleProperties.StopsAtFirstZero | Loan_app.py:36-37 | every row but the last keeps a positive balance; a schedule shorter than years*12 ends on a zero balance |
| ScheduleProperties.InterestOnOpeningBalance | Loan_app.py:18 | each row's interest is the monthly rate times the balance the month starts with: the principal in month 1, the previous row's balance afterwards |
| ScheduleProperties.EmiConstant | Loan_app.py:11-34 | every row's EMI is the same annuity payment for principal, annual_rate/12/100 and years*12 months |
| ScheduleProperties.PrincipalPortion | Loan_app.py:19-29 | the principal portion is EMI - interest + extra monthly, plus the extra yearly payment when month % 12 == 0, plus the balloon amount when balloon_year > 0 and month == balloon_year*12 |
| ScheduleProperties.BalanceClamp | Loan_app.py:31-32 | each balance is max(opening balance - principal portion, 0); a zero balance means the recorded portion covered the whole opening balance |
| ScheduleProperties.BalloonAtMostOnce | Loan_app.py:28-29 | at most one row of the schedule is a balloon month |
| ScheduleProperties.BalloonLands | Loan_app.py:24-29 | when the schedule reaches month balloon_year*12, that row's principal portion carries the extra monthly, the extra yearly and the balloon amount |
| ScheduleProperties.PrincipalAccounting | Loan_app.py:19-34 | the principal column adds up to at least the principal less the final balance, and to exactly that when no portion exceeds its opening balance |
| ScheduleProperties.OvershootExceedsPrincipal | Loan_app.py:23-34 | the principal column is not clamped: a loan of 100 at 12 % for one year with 1000 extra a month clears in one row, and its principal column exceeds the principal |
| ScheduleProperties.PortionNonNegative | Loan_app.py:18-32 | the schedule-indexed form of `StepWithinOpening`: within the sidebar ranges, row i, when it opens on a balance between 0 and the principal, has a non-negative principal portion and a balance no higher than its opening |
| ScheduleProperties.StepWithinOpening | Loan_app.py:18-32 | within the sidebar ranges, one month of the loan from any balance between 0 and the principal pays a non-negative principal portion and does not raise the balance |
| ScheduleProperties.OpeningWithinPrincipal | Loan_app.py:17-32 | within the sidebar ranges, every month starts from a balance between 0 and the principal |
| ScheduleProperties.BalancesNonIncreasing | Loan_app.py:17-32 | within the sidebar ranges, each row's balance is at most the balance it started from, which is at most the principal |
| ScheduleProperties.RunLengthAntitone | Loan_app.py:23-37 | a run from no larger a balance, paying at least as much extra every month, has no more rows |
| ScheduleProperties.MoreExtrasNeverLonger | Loan_app.py:23-37 | raising the extra monthly, extra yearly or balloon amount, all else equal, never makes the schedule longer |
| ScheduleProperties.RunLevel | Loan_app.py:17-32 | without extras and with a positive principal, a run from the level balance after k months follows the level balance for the remaining n-k months, one row each |
| ScheduleProperties.LevelRow | Loan_app.py:18-32 | without extras, a month that starts from the level balance after k months ends on the level balance after k+1 months, clamped at zero |
| ScheduleProperties.ScheduleLevel | Loan_app.py:9-32 | without extras and with a positive principal, the schedule has years*12 rows and row i ends on the level balance after i+1 months |
| ScheduleProperties.NoExtrasFullTerm | Loan_app.py:9-37 | without extras and with a positive principal, the schedule has exactly years*12 rows; every balance but the last is positive and the last is exactly zero |
| ScheduleProperties.FinalBalanceZero | Loan_app.py:17-37 | within the sidebar ranges the schedule always ends on a zero balance, so the loan is fully repaid, and the principal column adds up to at least the principal |
| ScheduleProperties.RunBelowLevel | Loan_app.py:17-37 | within the sidebar ranges, a run that starts at or below the level balance after k months ends, after j rows, at or below the level balance after k+j months |
| ScheduleProperties.StepBelowLevel | Loan_app.py:18-32 | one month with non-negative extras, from a balance between 0 and the level balance after k months, ends at or below the level balance after k+1 months when that balance is not negative |
| ScheduleProperties.LevelBalanceNonNegative | Loan_app.py:11 | for a principal of at least 0, the balance left by the fixed payment alone is never negative up to month n |
| ScheduleProperties.ZeroPrincipalSingleRow | Loan_app.py:11-37 | a zero principal gives a zero EMI and a single row with zero interest and zero balance |

## Left out

- The Streamlit page (Loan_app.py:43-103): input widgets, the button, tables,
  totals display, pie and line charts, explanatory text. It is user interface.
  The model keeps only the widgets' ranges (Loan_app.py:47-54), as the
  predicate `SidebarBounds`, which some of the properties assume.
- The pandas DataFrame (Loan_app.py:39). The engine returns the rows as a
  sequence of `Row` values with the same five columns.
- The `numpy_financial.pmt` call (Loan_app.py:11). It is a library routine; the
  model writes out the annuity formula it evaluates for a positive rate with
  payments at the end of each period. Its zero-rate branch (principal / n)
  and its behaviour for a negative rate or zero months are not modelled: the
  engine requires a positive rate and at least one year, which the sidebar
  guarantees (Loan_app.py:48-49).
- Floating point. The model computes over exact reals, so neither rounding
  nor overflow is captured:
  - Rounding can leave a tiny positive balance where the model reaches
    exactly zero. That delays the `break` by one month or leaves a residue in
    the last row.
  - The sidebar puts no upper bound on the rate or the principal
    (Loan_app.py:47-48). A very large rate (an annual rate of roughly 7430 %
    over 30 years) overflows `(1+r)^360`, and `npf.pmt` then yields NaN.
    `max(nan, 0)` keeps the NaN and `nan <= 0` is false, so the source emits
    NaN rows for the whole term. The model retires the loan instead.
- `total_payment = total_interest + principal` (Loan_app.py:59). It is
  display arithmetic outside the engine.
- The default arguments of `calculate_amortization` (`extra_monthly=0`, ...,
  `balloon_amount=0`, Loan_app.py:8). `Loan` has no defaults. Nothing is
  lost: the only call (Loan_app.py:58) passes all seven arguments.
- Python's mixing of `int` and `float` (`max(balance, 0)` can return the
  integer 0). The values are equal and the model does not distinguish them.
