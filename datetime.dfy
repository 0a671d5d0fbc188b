/** The ISO 8601 comparison predicates of src/common/datetime.ts.

    Each predicate turns its arguments into epoch milliseconds with the
    platform's `new Date(str).getTime()`, throws a plain `Error` when one of
    them is not a valid date, compares the numbers, and rewraps anything
    thrown as a `DatetimeError` whose cause is the original error. The
    platform parser is not part of the library: it is the parameter `parse`,
    which yields `None` where `getTime()` would be NaN. */
module Datetime {
  import opened Wrappers
  import opened Errors

  /** `new Date(str).getTime()`: epoch milliseconds, or `None` for NaN. */
  type DateParser = string -> Option<int>

  /** The error thrown inside every predicate when a string does not parse. */
  const InvalidDate := JsError(Error, "Invalid date string provided", None)

  /** What each predicate reports when it fails. */
  const BeforeMessage := "failed to compare provided date strings"
  const AfterMessage := "Unable to compare provided date strings"
  const EqualMessage := "Unable to compare provided date strings"
  const BetweenMessage := "Unable to evaluate if provided date string is between the range"

  predicate Valid(parse: DateParser, s: string) {
    parse(s).Some?
  }

  /** The milliseconds a valid string stands for. */
  function Ms(parse: DateParser, s: string): int
    requires Valid(parse, s)
  {
    parse(s).value
  }

  function IsBeforeISO(parse: DateParser, dateStr1: string, dateStr2: string): (r: Result<bool, JsError>)
    ensures r.Success? <==> Valid(parse, dateStr1) && Valid(parse, dateStr2)
    ensures r.Success? ==> (r.value <==> Ms(parse, dateStr1) < Ms(parse, dateStr2))
    ensures r.Failure? ==> r.error == JsError(DatetimeError, BeforeMessage, Some(InvalidDate))
  {
    var inner :=
      if !Valid(parse, dateStr1) || !Valid(parse, dateStr2) then Failure(InvalidDate)
      else Success(Ms(parse, dateStr1) < Ms(parse, dateStr2));
    Rewrap(inner, DatetimeError, BeforeMessage)
  }

  function IsAfterISO(parse: DateParser, dateStr1: string, dateStr2: string): (r: Result<bool, JsError>)
    ensures r.Success? <==> Valid(parse, dateStr1) && Valid(parse, dateStr2)
    ensures r.Success? ==> (r.value <==> Ms(parse, dateStr1) > Ms(parse, dateStr2))
    ensures r.Failure? ==> r.error == JsError(DatetimeError, AfterMessage, Some(InvalidDate))
  {
    var inner :=
      if !Valid(parse, dateStr1) || !Valid(parse, dateStr2) then Failure(InvalidDate)
      else Success(Ms(parse, dateStr1) > Ms(parse, dateStr2));
    Rewrap(inner, DatetimeError, AfterMessage)
  }

  function IsEqualISO(parse: DateParser, dateStr1: string, dateStr2: string): (r: Result<bool, JsError>)
    ensures r.Success? <==> Valid(parse, dateStr1) && Valid(parse, dateStr2)
    ensures r.Success? ==> (r.value <==> Ms(parse, dateStr1) == Ms(parse, dateStr2))
    ensures r.Failure? ==> r.error == JsError(DatetimeError, EqualMessage, Some(InvalidDate))
  {
    var inner :=
      if !Valid(parse, dateStr1) || !Valid(parse, dateStr2) then Failure(InvalidDate)
      else Success(Ms(parse, dateStr1) == Ms(parse, dateStr2));
    Rewrap(inner, DatetimeError, EqualMessage)
  }

  /** `[targetDate, startDate, endDate].some((date) => isNaN(date.getTime()))` */
  predicate SomeInvalid(parse: DateParser, dates: seq<string>) {
    exists i :: 0 <= i < |dates| && !Valid(parse, dates[i])
  }

  function IsBetweenISO(parse: DateParser, target: string, start: string, end: string): (r: Result<bool, JsError>)
    ensures r.Success? <==> Valid(parse, target) && Valid(parse, start) && Valid(parse, end)
    ensures r.Success? ==> (r.value <==> Ms(parse, start) < Ms(parse, target) < Ms(parse, end))
    ensures r.Failure? ==> r.error == JsError(DatetimeError, BetweenMessage, Some(InvalidDate))
  {
    var dates := [target, start, end];
    var inner :=
      if SomeInvalid(parse, dates) then Failure(InvalidDate)
      else
        assert Valid(parse, dates[0]) && Valid(parse, dates[1]) && Valid(parse, dates[2]);
        Success(Ms(parse, target) > Ms(parse, start) && Ms(parse, target) < Ms(parse, end));
    Rewrap(inner, DatetimeError, BetweenMessage)
  }

  /** After is the converse of before: both fail together, and
      `isAfterISO(a, b) == isBeforeISO(b, a)` otherwise. */
  lemma AfterIsConverseOfBefore(parse: DateParser, a: string, b: string)
    ensures IsAfterISO(parse, a, b).Success? <==> IsBeforeISO(parse, b, a).Success?
    ensures IsAfterISO(parse, a, b).Success? ==>
      IsAfterISO(parse, a, b).value == IsBeforeISO(parse, b, a).value
  {
  }

  /** Equality is symmetric on valid strings. */
  lemma EqualIsSymmetric(parse: DateParser, a: string, b: string)
    ensures IsEqualISO(parse, a, b) == IsEqualISO(parse, b, a)
  {
  }

  /** For two valid strings exactly one of before, equal and after holds. */
  lemma Trichotomy(parse: DateParser, a: string, b: string)
    requires Valid(parse, a) && Valid(parse, b)
    ensures IsBeforeISO(parse, a, b).Success? && IsEqualISO(parse, a, b).Success?
      && IsAfterISO(parse, a, b).Success?
    ensures var before, equal, after :=
      IsBeforeISO(parse, a, b).value, IsEqualISO(parse, a, b).value, IsAfterISO(parse, a, b).value;
      (before || equal || after) && !(before && equal) && !(before && after) && !(equal && after)
  {
  }

  /** Two strings that denote the same instant (however written) are neither
      before nor after each other, and every string equals itself. */
  lemma SameInstant(parse: DateParser, a: string, b: string)
    requires Valid(parse, a) && Valid(parse, b) && Ms(parse, a) == Ms(parse, b)
    ensures IsEqualISO(parse, a, b) == Success(true)
    ensures IsBeforeISO(parse, a, b) == Success(false)
    ensures IsAfterISO(parse, a, b) == Success(false)
  {
  }

  /** Before is transitive. */
  lemma BeforeIsTransitive(parse: DateParser, a: string, b: string, c: string)
    requires IsBeforeISO(parse, a, b) == Success(true)
    requires IsBeforeISO(parse, b, c) == Success(true)
    ensures IsBeforeISO(parse, a, c) == Success(true)
  {
  }

  /** On valid strings, between is "after start and before end". */
  lemma BetweenIsAfterAndBefore(parse: DateParser, target: string, start: string, end: string)
    requires Valid(parse, target) && Valid(parse, start) && Valid(parse, end)
    ensures IsBetweenISO(parse, target, start, end).value ==
      (IsAfterISO(parse, target, start).value && IsBeforeISO(parse, target, end).value)
  {
  }

  /** The range excludes both ends: a target at the same instant as `start`
      or as `end` is not between them. */
  lemma BetweenExcludesEnds(parse: DateParser, target: string, start: string, end: string)
    requires Valid(parse, target) && Valid(parse, start) && Valid(parse, end)
    requires Ms(parse, target) == Ms(parse, start) || Ms(parse, target) == Ms(parse, end)
    ensures IsBetweenISO(parse, target, start, end) == Success(false)
  {
  }

  /** An invalid string in any of the three positions makes `isBetweenISO`
      throw a `DatetimeError` whose cause is the invalid-date error. */
  lemma BetweenFailsOnAnyInvalid(parse: DateParser, dates: seq<string>, i: nat)
    requires |dates| == 3 && i < 3 && !Valid(parse, dates[i])
    ensures IsBetweenISO(parse, dates[0], dates[1], dates[2]).Failure?
    ensures IsBetweenISO(parse, dates[0], dates[1], dates[2]).error.name == DatetimeError
    ensures IsBetweenISO(parse, dates[0], dates[1], dates[2]).error.cause == Some(InvalidDate)
  {
  }
}
