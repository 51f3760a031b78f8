# Shift wage calculator with premiums — Dafny model

This project models the wage function `calcul_salaire` of a small shift-pay
calculator. Given the date of a shift, an hourly rate and the start and end
times as `HH:MM`, the function returns a breakdown:

- the shift length in hours, with the midnight rollover: an end at or
  before the start is on the next day, so a shift lasts between one minute
  and 24 hours;
- the night-hour count, taken by stepping from the start in whole hours
  while the step is before the end, and counting every step whose time of
  day is at or after 23:00 or before 06:00 (a half-hour shift from 23:00
  counts one night hour; a shift from 22:30 to 23:30 counts none);
- overtime, the hours beyond 9.5;
- base pay (hours × rate), a Sunday premium of 4.80 and a Saturday premium
  of 2.40 per hour of the whole shift on those days, a night premium of
  8.40 per counted night hour, an overtime premium of a quarter of the rate
  per overtime hour, and the gross pay, their sum.

Modules:

- `Clock` (clock.dfy): times of day as minutes since midnight (`Minute`,
  0..1439), a strict two-digit `HH:MM` reader and writer. `Wrappers` holds
  the `Option` type.
- `Shift` (shift.dfy): the rollover (`ShiftLength`), hours (`TotalHours`),
  and the night-hour loop (`CountNightHours`, a method with a `while` loop
  proved equal to the recursive count `NightSteps`).
- `Calendar` (calendar.dfy): the day of the week of a date, counted in days
  from 0001-01-01 (a Monday) in the proleptic Gregorian calendar.
- `Pay` (pay.dfy): overtime, premiums, base and gross pay (`Assemble`,
  `WageOf`), and `ComputeWage`, the whole function.

Amounts are exact real numbers. app.py has no break input and no holiday
table; it does not rank hour categories against each other and does not
suppress overtime on weekends or at night. The Sunday and Saturday premiums
are paid on every hour of the shift, and the Saturday, Sunday, night and
overtime premiums all add up (`Pay.SaturdayWithOvertimeExample` shows a
Saturday shift paid both the Saturday and the overtime premium).

## Model

| member | source | states |
|---|---|---|
| `Clock.ParseTime` | app.py:9-11 | an accepted text is five characters `DD:DD`, and the time it denotes has the two-digit hour and minute written in it; other text is rejected (`None`) |
| `Clock.FormatTime` | app.py:58 | a time is written as five characters, zero-padded hour and minute around a colon |
| `Clock.ParseFormat` | app.py:58 | every time of day written as `HH:MM` is read back as the same time |
| `Clock.FormatParse` | app.py:9-11 | every accepted text is exactly the canonical spelling of the time it denotes |
| `Shift.IsNightTime` | app.py:20 | a time of day is night exactly when its clock hour is 23 or 0 to 5, i.e. at or after 23:00 or before 06:00 |
| `Shift.ShiftLength` | app.py:12-13 | the shift length in minutes is in 1..1440, the clock at start + length shows the end, the shift crosses midnight exactly when end <= start, and it lasts 24 hours exactly when start == end |
| `Shift.ShiftLengthUnique` | app.py:12-13 | the rolled-over length is the only length from one minute to one day that takes the clock from start to end |
| `Shift.TotalHours` | app.py:15 | total hours are in (0, 24] and are the length in minutes divided by 60 |
| `Shift.StepCount` | app.py:19-22 | the loop's step count is at most 24 for a shift of at most a day, and at least one for a non-empty shift |
| `Shift.StepBound` | app.py:19-22 | the loop runs step k (its guard `heure < h_fin` holds at start + 60k) exactly when k is below the step count, the ceiling of length / 60 |
| `Shift.NightSteps` | app.py:17-22 | the night count over n hour steps is at most n |
| `Shift.NightHoursOf` | app.py:17-22 | the night hours of a shift are the number of hour steps of the loop read in the night window (the size of `NightStepSet`), at most the step count and at most 24 |
| `Shift.CountNightHours` | app.py:17-22 | the loop (which runs exactly the step count of iterations, see `Shift.StepBound`) returns the number of hour steps whose clock is in the night window, which is at most the step count and at most 24 |
| `Shift.NightStepsIsCardinality` | app.py:19-21 | the count equals the size of the set of steps k whose clock (start + 60k) mod 1440 is at or after 23:00 or before 06:00 |
| `Shift.NightStepsMonotone` | app.py:17-22 | counting over more steps never counts fewer night hours |
| `Shift.NightStepsShift` | app.py:17-22 | the steps of a start one hour later are the steps of the earlier start without its first step, plus one more |
| `Shift.NightDayRotate` | app.py:17-22 | over a whole day of steps, starting one hour later counts the same night hours |
| `Shift.NightDayFromMinutes` | app.py:17-22 | over a whole day of steps, only the minutes past the hour of the start matter |
| `Shift.NightStepsWithinFirstHour` | app.py:17-22 | a start in the first hour of the day reads the same clock hours as a start at midnight |
| `Shift.NightStepsFromMidnight` | app.py:17-22 | from midnight, steps 1-6 are night, steps 7-23 are not, and step 24 (23:00) is |
| `Shift.FullDayNightHours` | app.py:12-22 | a 24-hour shift (start equal to end) always counts exactly 7 night hours, whatever its start |
| `Shift.DaytimeShiftNoNight` | app.py:17-22 | a shift starting at or after 06:00 and ending by 23:00 the same day counts no night hour |
| `Shift.HalfHourAtElevenCountsOne` | app.py:17-22 | 23:00 to 23:30 counts one night hour, because the step at 23:00 counts whole |
| `Shift.HalfPastTenCountsNone` | app.py:17-22 | 22:30 to 23:30 counts no night hour, because its only step is read at 22:30 |
| `Shift.TenToTwoCountsThree` | app.py:12-22 | 22:00 to 02:00 lasts four hours and counts three night hours |
| `Calendar.NextDay` | app.py:27 | the day after a valid date is a valid date, in the same year or on 1 January of the next |
| `Calendar.DaysBeforeNextYear` | app.py:27 | each year adds 366 days to the day count when it is a leap year and 365 otherwise |
| `Calendar.DaysBeforeMonth` | app.py:27 | the days before each month are those of a common year (0, 31, 59, ..., 334), plus one from March on in a leap year |
| `Calendar.WeekdayOf` | app.py:27 | 0001-01-01 is a Monday; with `Calendar.NextDayWeekday`, each following date falls on the next weekday |
| `Calendar.MonthsFillYear` | app.py:27 | the twelve months add up to the length of the year |
| `Calendar.NextDayNumber` | app.py:27 | the day after a date is numbered one more, across month and year ends |
| `Calendar.NextDayWeekday` | app.py:27 | consecutive dates fall on consecutive weekdays |
| `Calendar.KnownWeekdays` | app.py:27 | 1970-01-01 is a Thursday and 2024-01-01 a Monday |
| `Pay.OvertimeHours` | app.py:24 | overtime is never negative, is zero exactly when the shift is at most 9.5 hours, is the excess over 9.5 hours otherwise, and is less than a non-empty shift |
| `Pay.DayPremiumPerHour` | app.py:28-29 | the weekday premium per hour is 4.80 on Sundays, 2.40 on Saturdays, and zero on every other day |
| `Pay.Assemble` | app.py:24-32 | the breakdown keeps the day, hours and night hours it is given; its overtime is `Pay.OvertimeHours` of the hours; base pay is hours × rate, the overtime premium ¼ × rate × overtime hours and the night premium 8.40 × night hours; the weekday premiums and gross pay are stated by `Pay.AssembleWeekdayPremiums` and `Pay.GrossPayClosedForm` |
| `Pay.WageOf` | app.py:12-32 | the breakdown of a shift has its day, total hours in (0, 24] equal to the length in minutes over 60, night hours equal to the number of night steps (at most 24), and no overtime exactly when the shift is at most 570 minutes |
| `Pay.ComputeWage` | app.py:8-47 | the result is rejected exactly when the start or end text is not a time; otherwise it is the breakdown of the shift on the weekday of the date, with the night hours counted by the loop |
| `Pay.GrossPayClosedForm` | app.py:26-32 | gross pay is the sum of base pay and the four premiums, and equals rate × (hours + ¼ overtime) + weekday premium × hours + 8.40 × night hours |
| `Pay.WeekdayPremiums` | app.py:27-29 | the Sunday premium is non-zero exactly on Sundays and then is 4.80 × hours; the Saturday premium likewise on Saturdays with 2.40; at most one of them is non-zero |
| `Pay.AssembleWeekdayPremiums` | app.py:28-29 | for any positive number of hours, the Sunday premium is non-zero exactly on Sundays and is 4.80 per hour, the Saturday premium likewise with 2.40, and at most one of them is paid |
| `Pay.NightPremiumIgnoresRateAndDay` | app.py:30 | the night premium is 8.40 × the night-hour count, whatever the rate and the day |
| `Pay.OvertimeOfShift` | app.py:15-24 | a shift's overtime is below its total hours, zero exactly when the shift is at most 570 minutes, and otherwise the minutes beyond 570 over 60 |
| `Pay.PayLinesOfShift` | app.py:15-31 | for every shift, base pay is its total hours × rate, the overtime premium ¼ × rate × its overtime hours, and the night premium 8.40 × its counted night hours |
| `Pay.PayIsNonNegative` | app.py:26-32 | with a non-negative rate (the form's minimum at app.py:52), base pay and every premium are non-negative and gross pay is at least base pay |
| `Pay.AssembleIsNonNegative` | app.py:24-32 | with a non-negative rate and hours, base pay and every premium are non-negative and gross pay is at least base pay |
| `Pay.GrossFormulaMonotone` | app.py:26-32 | with a non-negative rate and weekday premium, the closed form of gross pay grows with hours, overtime hours and night hours |
| `Pay.MoreHoursPayNoLess` | app.py:24-32 | with a non-negative rate, more hours and more night hours on the same day never pay less |
| `Pay.LongerShiftPaysNoLess` | app.py:12-32 | with a non-negative rate, a longer shift from the same start on the same day never pays less |
| `Pay.PlainWeekdayExample` | app.py:24-32 | Monday 08:00-16:00 at 25 per hour: 8 hours, no night or overtime hours, base and gross pay 200 |
| `Pay.SaturdayWithOvertimeExample` | app.py:24-32 | Saturday 08:00-18:00 at 20 per hour: 10 hours, 0.5 overtime hours, Saturday premium 24, overtime premium 2.5, gross pay 226.5 |

## Left out

- The Streamlit form, its widgets and the result display (app.py:2, 6, 49-60), and the pandas table built from the result: user interface only.
- The worker's name and the result's text fields (`Nom`, `Date`, `Jour` as a lower-case English day name) are presentation only; the breakdown keeps the weekday as `Calendar.Weekday`.
- Rounding to two decimals with Python's `round` on binary floating point (app.py:26, 30-32, 38-44) is not modelled: every amount is the exact real value before rounding, and the constants 4.80, 2.40, 8.40, 0.25 and 9.5 are exact.
- `Clock.ParseTime`: `datetime.strptime` with `%H:%M` also accepts one-digit hours and minutes; this reader accepts only the two-digit form, which is what the form produces with `strftime("%H:%M")` (app.py:58). A text that `strptime` rejects raises an exception; here it gives `None`.
- `Calendar.WeekdayOf` replaces `pd.Timestamp(date).day_name()` (app.py:27) with a day count; the range limit of pandas timestamps (years 1677 to 2262) is not modelled, and years before 1 are excluded by `Calendar.IsValidDate`, as they are by Python's `date`.
- The hourly rate, a float in the source, is an unconstrained real here; its non-negativity is enforced by the form (app.py:52) and is a hypothesis only of the lemmas that need it.
