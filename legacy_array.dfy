/** `getSequence` of src/array.ts, the older copy of the one in
    src/common/array.ts. It checks the same condition but throws with a
    different message, "length must be a positive integer", although a length
    of 0 is accepted. Its `ArrayError` extends the `BaseError` of src/errors.ts,
    which is not part of this model; it is taken to behave like the `BaseError`
    of src/common/errors.ts. */
module LegacyArray {
  import opened Wrappers
  import opened Errors
  import opened JsNumber
  import CommonArray

  const LengthMessage := "length must be a positive integer"

  /** `Array.from({ length }, (_, i) => i)` after a check that length is a
      non-negative integer. */
  function GetSequence(length: real): (r: Result<seq<int>, JsError>)
    ensures r.Failure? <==>
      length < 0.0 || !IsInteger(length) || length > CommonArray.MaxArrayLength as real
    ensures length < 0.0 || !IsInteger(length) ==>
      r == Failure(JsError(ArrayError, LengthMessage, None))
    ensures 0.0 <= length && IsInteger(length) && length > CommonArray.MaxArrayLength as real ==>
      r == Failure(CommonArray.InvalidArrayLength)
    ensures r.Success? ==> |r.value| == length.Floor
    ensures r.Success? ==> forall i :: 0 <= i < |r.value| ==> r.value[i] == i
  {
    if length < 0.0 || !IsInteger(length) then
      Failure(NewBaseError(ArrayError, Some(LengthMessage), None))
    else
      CommonArray.IndexArray(length.Floor)
  }

  /** Despite the message, a length of 0 is accepted and yields []. */
  lemma ZeroLengthAccepted()
    ensures GetSequence(0.0) == Success([])
  {
  }

  /** The two copies accept the same inputs and return the same sequence;
      they differ only in the message of the ArrayError they throw, and throw the
      same RangeError for a length past the maximum array length. */
  lemma AgreesWithCommon(length: real)
    ensures GetSequence(length).Success? <==> CommonArray.GetSequence(length).Success?
    ensures GetSequence(length).Success? ==>
      GetSequence(length).value == CommonArray.GetSequence(length).value
    ensures GetSequence(length).Failure? && GetSequence(length).error.name == ArrayError ==>
      CommonArray.GetSequence(length).error.name == ArrayError
      && GetSequence(length).error.message != CommonArray.GetSequence(length).error.message
    ensures GetSequence(length).Failure? && GetSequence(length).error.name != ArrayError ==>
      GetSequence(length).error == CommonArray.GetSequence(length).error == CommonArray.InvalidArrayLength
  {
  }
}
