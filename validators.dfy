/** The two input checks of the ledger: `validate_date` and
    `validate_amount`. */
module Validators {
  import opened Options
  import opened Dates

  /** `validate_date`: whether `strptime(s, '%Y-%m-%d')` succeeds. */
  predicate ValidateDate(s: string)
  {
    ParseDate(s).Some?
  }

  /** `validate_amount` over the result of `float(text)`, `None` when that
      raised `ValueError`: accepted with its value when positive, otherwise
      refused with 0. */
  function ValidateAmount(parsed: Option<real>): (r: (bool, real))
    ensures r.0 <==> parsed.Some? && parsed.value > 0.0
    ensures r.1 == if r.0 then parsed.value else 0.0
    ensures r.1 >= 0.0
  {
    match parsed
    case None => (false, 0.0)
    case Some(amount) => if amount <= 0.0 then (false, 0.0) else (true, amount)
  }

  /** Every text `validate_date` accepts names a calendar date, and every
      calendar date written as `strftime` writes it is accepted. */
  lemma ValidateDateMeaning(s: string, d: Date)
    ensures ValidateDate(s) ==> IsCalendarDate(ParseDate(s).value)
    ensures IsCalendarDate(d) ==> ValidateDate(FormatDate(d))
  {
    if IsCalendarDate(d) {
      ParseFormat(d);
    }
  }

  lemma ValidateExamples()
    ensures ValidateAmount(Some(-5.0)) == (false, 0.0)
    ensures ValidateAmount(Some(0.0)) == (false, 0.0)
    ensures ValidateAmount(None) == (false, 0.0)
    ensures ValidateAmount(Some(12.5)) == (true, 12.5)
    ensures !ValidateDate("2024-13-01") && !ValidateDate("2024-02-30")
  {
    ParseRefusals();
  }
}
