/**
 * The validators of the `Expense` model (backend/models.py). They apply only
 * where an `Expense` is built; `add_expense` takes a raw dict and never
 * passes through them.
 */
module Validators {
  import opened Wrappers
  import opened PyText
  import opened DateTimes
  import opened PyRuntime

  /**
   * `parse_date`: `None` becomes `datetime.utcnow()` (a naive value), a
   * string is parsed after 'Z' is replaced by "+00:00" and falls back to
   * `utcnow()`, and any other value is returned unchanged.
   */
  function ParseDate(v: Value, lib: Library, clock: DateTime): (r: Value)
    ensures v.Null? || v.Str? ==> r.Time?
    ensures !(v.Null? || v.Str?) ==> r == v
  {
    match v
    case Null => Time(UtcNowNaive(clock))
    case Str(s) =>
      (match lib.fromIsoFormat(ReplaceChar(s, 'Z', "+00:00"))
       case Some(d) => Time(d)
       case None => Time(UtcNowNaive(clock)))
    case _ => v
  }

  /** `validate_amount`: `None` where it raises `ValueError`. */
  function ValidateAmount(amount: real): (r: Option<real>)
    ensures r.Some? <==> amount > 0.0
    ensures r.Some? ==> r.value == amount
  {
    if amount <= 0.0 then None else Some(amount)
  }

  /** `validate_category`: a falsy value becomes "Other"; any other value is kept, listed or not. */
  function ValidateCategory(v: Value): (r: Value)
    ensures Truthy(r)
    ensures Truthy(v) ==> r == v
    ensures !Truthy(v) ==> r == Str("Other")
  {
    if !Truthy(v) then Str("Other") else v
  }

  /**
   * The `category` field: when the key is absent the default "Other" is used
   * and the validator does not run; a given value goes through it.
   */
  function CategoryField(given: Option<Value>): (r: Value)
    ensures given.None? ==> r == Str("Other")
    ensures given.Some? ==> r == ValidateCategory(given.value)
  {
    if given.None? then Str("Other") else ValidateCategory(given.value)
  }

  /**
   * The `date` field: when the key is absent the default `None` is kept
   * (validators do not run on defaults); a given value goes through
   * `parse_date`, so an explicit `None` becomes the current time while an
   * absent date stays `None`.
   */
  function DateField(given: Option<Value>, lib: Library, clock: DateTime): (r: Value)
    ensures given.None? ==> r == Null
    ensures given == Some(Null) ==> r == Time(UtcNowNaive(clock))
    ensures given.Some? && given.value.Str? ==> r.Time?
    ensures given.Some? && !given.value.Null? && !given.value.Str? ==> r == given.value
  {
    if given.None? then Null else ParseDate(given.value, lib, clock)
  }

  /** The fallback time of `parse_date` is naive: `utcnow()` carries no `tzinfo`. */
  lemma ParseDateFallbackIsNaive(v: Value, lib: Library, clock: DateTime)
    requires v.Null? || (v.Str? && lib.fromIsoFormat(ReplaceChar(v.s, 'Z', "+00:00")).None?)
    ensures ParseDate(v, lib, clock) == Time(UtcNowNaive(clock))
    ensures !IsAware(ParseDate(v, lib, clock).t)
  {
  }

  /** A string with a 'Z' marker is parsed with the marker turned into an explicit "+00:00". */
  lemma ParseDateReadsZuluAsUtc(s: string, lib: Library, clock: DateTime)
    requires lib.fromIsoFormat(ReplaceChar(s, 'Z', "+00:00")).Some?
    ensures ParseDate(Str(s), lib, clock) == Time(lib.fromIsoFormat(ReplaceChar(s, 'Z', "+00:00")).value)
    ensures 'Z' !in ReplaceChar(s, 'Z', "+00:00")
    ensures 'Z' !in s ==> ReplaceChar(s, 'Z', "+00:00") == s
  {
    ReplaceCharRemovesAll(s, 'Z', "+00:00");
    if 'Z' !in s {
      ReplaceCharAbsent(s, 'Z', "+00:00");
    }
  }

  /** Validation accepts a value a second time unchanged. */
  lemma ValidatorsIdempotent(amount: real, category: Value)
    ensures ValidateAmount(amount).Some? ==> ValidateAmount(ValidateAmount(amount).value) == ValidateAmount(amount)
    ensures ValidateCategory(ValidateCategory(category)) == ValidateCategory(category)
  {
  }
}
