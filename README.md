# Data-shaping helpers of cnbg-toyolib, modelled in Dafny

This project models the small helpers of the library that shape data before it is
shown, compared or exported:

- the ISO 8601 comparison predicates `isBeforeISO`, `isAfterISO`, `isEqualISO` and
  `isBetweenISO` (src/common/datetime.ts), module `Datetime`;
- `chunkArray` and `getSequence` (src/common/array.ts), module `CommonArray`, and the
  older copy of `getSequence` in src/array.ts, module `LegacyArray`;
- the CSV text assembly of `convertToCsvBuffer` (src/common/csv.ts), module `Csv`;
- `isEmptyString` and `padString` (src/common/string.ts), module `Strings`.

Shared pieces: `Wrappers` (Option and Result), `Errors` (the `BaseError` convention of
src/common/errors.ts: a name, a message and an optional cause, and the library's
catch-and-rethrow pattern as `Rewrap`), `JsNumber` (`Number.isInteger` and the
ECMAScript truncation of a number to an integer) and `Arithmetic` (division facts for
the proofs).

How the source is represented:

- A thrown error is a `Failure` of a `Result`. Each function that wraps its body in
  `try { ... } catch (error) { throw new XError(message, error) }` is written as an inner
  result passed through `Errors.Rewrap`, so the cause is kept.
- A JavaScript `number` is a `real`. Only finite numbers are modelled.
- The platform date parser (`new Date(str).getTime()`) is the parameter
  `parse: string -> Option<int>`. It returns epoch milliseconds, or `None` where
  `getTime()` is NaN. The library does not parse dates itself, and neither does the model.
- `iconv.encode` is the parameter `encode`. A successful result is returned unchanged;
  an error it throws is rewrapped as a `CsvError` with that error as cause, as the
  source does.
- `chunkArray` and `convertToCsvBuffer` build their results in loops. They are methods
  with loops, proved against the specification functions `Chunks` and `CsvText`.
  Everything else is a function.
- `padString`'s `str` may be null or undefined. It is a `MaybeString`, because the error
  message prints `null` and `undefined` differently.

`isBetweenISO` excludes both ends of its range. The CSV text quotes and escapes nothing,
so it is not CSV in the sense of RFC 4180, section 2. `NoQuoting` shows a row that
cannot be told apart from another row. `LegacyArray.GetSequence` says "length must be a
positive integer", yet it accepts 0, as its doc-comment and tests expect.

## Model

| member | source | states |
|---|---|---|
| `Errors.NewBaseError` | src/common/errors.ts:11-16 | the error carries the class name of the subclass built and the given cause; its message is the given one, or "unknown error" when none is given |
| `Errors.Rewrap` | src/common/datetime.ts:21-26 | a value passes through unchanged; a thrown error becomes an error of the given class and message whose cause is the original error |
| `Datetime.IsBeforeISO` | src/common/datetime.ts:13-27 | succeeds iff both strings parse, and is then true iff the first instant is earlier; otherwise a DatetimeError ("failed to compare provided date strings") caused by the invalid-date Error |
| `Datetime.IsAfterISO` | src/common/datetime.ts:37-51 | succeeds iff both strings parse, and is then true iff the first instant is later; otherwise a DatetimeError ("Unable to compare provided date strings") caused by the invalid-date Error |
| `Datetime.IsEqualISO` | src/common/datetime.ts:61-75 | succeeds iff both strings parse, and is then true iff both denote the same millisecond; otherwise a DatetimeError caused by the invalid-date Error |
| `Datetime.IsBetweenISO` | src/common/datetime.ts:86-112 | succeeds iff all three strings parse, and is then true iff start < target < end strictly; otherwise a DatetimeError ("Unable to evaluate if provided date string is between the range") caused by the invalid-date Error |
| `Datetime.AfterIsConverseOfBefore` | src/common/datetime.ts:44 | isAfterISO(a, b) fails exactly when isBeforeISO(b, a) does, and otherwise gives the same answer |
| `Datetime.EqualIsSymmetric` | src/common/datetime.ts:68 | isEqualISO(a, b) and isEqualISO(b, a) give the same result |
| `Datetime.Trichotomy` | src/common/datetime.ts:13-75 | for two valid strings, exactly one of before, equal and after is true |
| `Datetime.SameInstant` | src/common/datetime.spec.ts:35-39 | two strings for the same instant, however written, are equal and neither before nor after each other |
| `Datetime.BeforeIsTransitive` | src/common/datetime.ts:20 | before(a, b) and before(b, c) give before(a, c) |
| `Datetime.BetweenIsAfterAndBefore` | src/common/datetime.ts:102-105 | on valid strings, between(t, s, e) equals after(t, s) and before(t, e) |
| `Datetime.BetweenExcludesEnds` | src/common/datetime.spec.ts:139-148 | a target at the instant of start or of end is not between them |
| `Datetime.BetweenFailsOnAnyInvalid` | src/common/datetime.ts:96-100 | an invalid string in any of the three positions gives a DatetimeError caused by the invalid-date Error |
| `CommonArray.ChunkArray` | src/common/array.ts:17-33 | fails with ArrayError "Chunk size must be a positive integer" iff chunkSize <= 0 or is not an integer; otherwise returns the chunks of the array of that size |
| `CommonArray.ChunksFlatten` | src/common/array.ts:23-24 | concatenating the chunks in order gives back the array |
| `CommonArray.ChunkSizes` | src/common/array.ts:14 | every chunk is non-empty and at most chunkSize long; all but the last are exactly chunkSize long |
| `CommonArray.ChunkCount` | src/common/array.ts:23 | there are ceil(length / chunkSize) chunks, none for an empty array |
| `CommonArray.ChunkAt` | src/common/array.ts:24 | chunk k is array[k * chunkSize .. min((k + 1) * chunkSize, length)] |
| `CommonArray.IndexArray` | src/common/array.ts:46 | `Array.from` with a length past 2^32 - 1 throws RangeError "Invalid array length"; otherwise it gives that many elements with element i equal to i |
| `CommonArray.GetSequence` | src/common/array.ts:42-47 | fails with ArrayError "Sequence size must be a non-negative integer" iff seqSize < 0 or is not an integer, and with the uncaught RangeError iff it is an integer past 2^32 - 1; otherwise returns seqSize elements with element i equal to i |
| `CommonArray.SequenceLengthLimit` | src/common/array.ts:46 | size 2^32 - 1 is accepted and size 2^32 gives the RangeError, not an ArrayError |
| `CommonArray.SequenceGrows` | src/common/array.ts:46 | the sequence of size 0 is empty, and below the array length limit that of size n + 1 is that of size n followed by n |
| `LegacyArray.GetSequence` | src/array.ts:13-18 | fails with ArrayError "length must be a positive integer" iff length < 0 or is not an integer, and with the uncaught RangeError iff it is an integer past 2^32 - 1; otherwise returns length elements with element i equal to i |
| `LegacyArray.ZeroLengthAccepted` | src/array.ts:14 | despite its message, length 0 is accepted and gives [] |
| `LegacyArray.AgreesWithCommon` | src/array.ts:13-18 | both copies accept the same lengths and return the same sequences; their ArrayErrors differ only in the message, and past the length limit both throw the same RangeError |
| `Csv.LineEnd` | src/common/csv.ts:31 | the line end is "\n" when the options give none or ask for "\n", and "\r\n" when they ask for it |
| `Csv.ConvertToCsvBuffer` | src/common/csv.ts:26-48 | for rows whose values are strings, null or undefined, the result is the encoding of the CSV text in the chosen encoding, and an encoder failure is rethrown as CsvError "failed to convert to csv string" with the failure as cause |
| `Csv.StartsWithHeaderLine` | src/common/csv.ts:33 | the text starts with the header joined by "," and one line end |
| `Csv.NoRowsIsHeaderLine` | src/common/csv.ts:33-34 | with no rows the text is exactly the header line |
| `Csv.EndsWithEol` | src/common/csv.ts:34-40 | the text always ends with the line end |
| `Csv.RowsInOrder` | src/common/csv.ts:34-40 | the lines of rows1 + rows2 are those of rows1 followed by those of rows2 |
| `Csv.OneLinePerRow` | src/common/csv.ts:34-40 | when no header name or field holds a line feed, the text has one line feed per row plus one for the header |
| `Csv.RecordMatchesArray` | src/common/csv.ts:37-38 | a record row gives the same line as the array row holding its values in header order |
| `Csv.NoQuoting` | src/common/csv.ts:35-36 | fields are copied verbatim: the field "a,b" gives the same line as the two fields "a" and "b" |
| `Csv.ArrayRowsExample` | src/common/csv.spec.ts:5-19 | the test's two array rows give "Name,Age,Country\nAlice,30,USA\nBob,25,Canada\n" under the default line end |
| `Csv.RecordRowExample` | src/common/csv.spec.ts:21-35 | the test's record row gives the line of the matching array row |
| `Strings.EmptyIffAllWhitespace` | src/common/string.ts:22-24 | isEmptyString holds iff every character is ECMAScript whitespace or a line terminator |
| `Strings.StringRepeat` | src/common/string.ts:42 | repeat throws a RangeError iff the count truncates to a negative number, and otherwise gives that many copies |
| `Strings.PadString` | src/common/string.ts:34-54 | fails iff str is blank (null, undefined or isEmptyString) and length truncates to a negative number, with a StringError naming str and caused by the RangeError |
| `Strings.BlankGivesFill` | src/common/string.ts:41-42 | a blank str gives fillChar repeated length times, cycling through fillChar |
| `Strings.NonBlankUnchanged` | src/common/string.ts:44-46 | a non-blank str at least length long, or padded with an empty fill, comes back unchanged |
| `Strings.NonBlankPadded` | src/common/string.ts:44-46 | a shorter non-blank str gives exactly length characters: str last by default ("start"), str first for "end", cycled fill in the rest |
| `Strings.PadExamples` | src/common/string.spec.ts:27-46 | the tests' cases: "  123", "00123", "12300", "00000" for null and undefined; "" is empty and "Hello" is not |

## Left out

- `unixTimeToISO8601` is tested in src/common/datetime.spec.ts, but src/common/datetime.ts does not define it. It also reads the host's local UTC offset. It is not part of this model.
- Date parsing is the platform's `Date` parser, a foreign call. It is the parameter `parse`. No ISO 8601 or RFC 3339 grammar is claimed. So offset-insensitive equality (`...Z` against `...+09:00`) is a property of the parser, not of the library.
- `handleUnknownError` is imported from src/common/errors.ts but not defined in the file. It is modelled as passing the caught error through unchanged. In the model every thrown value is already an error.
- `iconv.encode` and all of src/common/encoding.ts are an external byte-encoding library (UTF-8, Shift_JIS, cp932). They are the `encode` parameter.
- A cell is a string, `null` or `undefined`; `join` renders the last two as "". Numbers, booleans and objects, which `join` converts with ECMAScript ToString, are not modelled.
- Csv.ConvertToCsvBuffer: a record row is modelled as a map of its own keys, so `row[h]` for a header naming an inherited property (`constructor`, `toString`) reads as undefined in the model but as the inherited value in the source. A value whose conversion throws (a Symbol, an object without a usable `toString`) makes `join` throw a TypeError, which the source rethrows as CsvError "failed to convert to csv string"; the model has no such value, so its contract names the encoder as the only failure.
- NaN and infinite numbers are not modelled. Neither are arguments that violate the declared TypeScript types: a null array, a null or undefined chunk size, or the string "3" as a size. The tests pass these only through `as any`.
- The catch branch of `chunkArray` (src/common/array.ts:27-31) is not modelled. It is reachable only with such a non-array argument.
- Strings.StringRepeat: the RangeError's message is a fixed text. The platform's wording, which also quotes the count, is left to the host. The RangeError for results longer than the host's maximum string length is not modelled.
- Strings.PadString: padStart's clamp of the target length at 2^53 - 1 is not modelled, nor is the RangeError padStart, padEnd and repeat throw for a result longer than the host's maximum string length (which the source would rethrow as a StringError). Characters stand for UTF-16 code units, so lengths of text outside the Basic Multilingual Plane are not modelled.
- LegacyArray.GetSequence: src/array.ts takes `BaseError` from src/errors.ts, which is not part of this model; it is taken to behave like the `BaseError` of src/common/errors.ts, on which the shared error name in `AgreesWithCommon` depends.
- `isString` (src/common/string.ts:13-15) is a runtime type test. It holds of every `string` in a typed model.
- `sum` in src/common/calc.ts is floating-point addition. src/front/io.ts is browser download and zip plumbing that only calls `chunkArray`. Both are not part of this model.
