/** `isEmptyString` and `padString` of src/common/string.ts, with the
    ECMAScript string operations they are built on (`trim`, `repeat`,
    `padStart`, `padEnd`) written out. Characters stand for the UTF-16 code
    units of the source's strings. */
module Strings {
  import opened Wrappers
  import opened Errors
  import opened JsNumber
  import Arithmetic

  /** The `str` argument of padString: a string, null or undefined. */
  datatype MaybeString = Null | Undefined | Str(s: string)

  datatype Alignment = Start | End

  const PadMessage := "failed to pad a string: "
  /** The platform's RangeError for a negative count; its exact wording,
      which also quotes the count, is left to the host. */
  const NegativeCount := JsError(RangeError, "Invalid count value", None)

  /** ECMAScript WhiteSpace and LineTerminator code points: what `trim`
      removes. */
  predicate IsWhitespace(c: char) {
    || c == '\t' || c == '\U{000B}' || c == '\U{000C}' || c == ' ' || c == '\U{00A0}' || c == '\U{FEFF}'
    || c == '\U{1680}' || ('\U{2000}' <= c <= '\U{200A}') || c == '\U{202F}' || c == '\U{205F}' || c == '\U{3000}'
    || c == '\n' || c == '\r' || c == '\U{2028}' || c == '\U{2029}'
  }

  predicate AllWhitespace(s: string) {
    forall i :: 0 <= i < |s| ==> IsWhitespace(s[i])
  }

  function TrimStart(s: string): string {
    if s != [] && IsWhitespace(s[0]) then TrimStart(s[1..]) else s
  }

  function TrimEnd(s: string): string {
    if s != [] && IsWhitespace(s[|s| - 1]) then TrimEnd(s[..|s| - 1]) else s
  }

  /** `s.trim()` */
  function Trim(s: string): string {
    TrimEnd(TrimStart(s))
  }

  /** isEmptyString: `str.trim() === ""` */
  predicate IsEmptyString(str: string) {
    Trim(str) == ""
  }

  lemma {:induction false} TrimStartKeepsBlankness(s: string)
    ensures AllWhitespace(TrimStart(s)) <==> AllWhitespace(s)
    decreases |s|
  {
    if s != [] && IsWhitespace(s[0]) {
      TrimStartKeepsBlankness(s[1..]);
      assert forall i :: 1 <= i < |s| ==> s[i] == s[1..][i - 1];
    }
  }

  lemma {:induction false} TrimEndEmpty(s: string)
    ensures TrimEnd(s) == "" <==> AllWhitespace(s)
    decreases |s|
  {
    if s != [] && IsWhitespace(s[|s| - 1]) {
      TrimEndEmpty(s[..|s| - 1]);
      assert forall i :: 0 <= i < |s| - 1 ==> s[i] == s[..|s| - 1][i];
    }
  }

  /** A string is empty in the sense of isEmptyString exactly when every
      character of it is whitespace (in particular "" is empty). */
  lemma EmptyIffAllWhitespace(str: string)
    ensures IsEmptyString(str) <==> AllWhitespace(str)
  {
    TrimStartKeepsBlankness(str);
    TrimEndEmpty(TrimStart(str));
  }

  /** `n` copies of s, one after the other. */
  function Repeat(s: string, n: nat): string {
    if n == 0 then "" else s + Repeat(s, n - 1)
  }

  /** `s.repeat(count)`: a count that truncates to a negative number throws
      a RangeError. */
  function StringRepeat(s: string, count: real): (r: Result<string, JsError>)
    ensures r.Failure? <==> Trunc(count) < 0
    ensures r.Failure? ==> r.error == NegativeCount
    ensures r.Success? ==> r.value == Repeat(s, Trunc(count))
  {
    if Trunc(count) < 0 then Failure(NegativeCount) else Success(Repeat(s, Trunc(count)))
  }

  /** Repeated copies of fill, truncated to k characters. */
  function Filler(fill: string, k: nat): string
    requires fill != []
  {
    seq(k, i requires 0 <= i < k => fill[i % |fill|])
  }

  /** `s.padStart(maxLength, fill)` */
  function PadStart(s: string, maxLength: real, fill: string): string {
    var target := ToLength(maxLength);
    if target <= |s| || fill == "" then s else Filler(fill, target - |s|) + s
  }

  /** `s.padEnd(maxLength, fill)` */
  function PadEnd(s: string, maxLength: real, fill: string): string {
    var target := ToLength(maxLength);
    if target <= |s| || fill == "" then s else s + Filler(fill, target - |s|)
  }

  /** The cases padString treats as blank: null, undefined, or a string that
      isEmptyString accepts. */
  predicate IsBlank(str: MaybeString) {
    str.Null? || str.Undefined? || IsEmptyString(str.s)
  }

  /** How `${str}` renders the argument in the error message. */
  function Display(str: MaybeString): string {
    match str
    case Null => "null"
    case Undefined => "undefined"
    case Str(s) => s
  }

  /** padString: fillChar defaults to " " and alignment to "start". A blank
      str becomes fillChar repeated length times; any other str is padded
      with padEnd for "end" and padStart otherwise. Whatever is thrown is
      rethrown as a StringError naming str. */
  function PadString(str: MaybeString, length: real, fillChar: Option<string>, alignment: Option<Alignment>)
    : (r: Result<string, JsError>)
    ensures r.Failure? <==> IsBlank(str) && Trunc(length) < 0
    ensures r.Failure? ==> r.error == JsError(StringError, PadMessage + Display(str), Some(NegativeCount))
  {
    var fill := fillChar.GetOr(" ");
    var inner :=
      if IsBlank(str) then StringRepeat(fill, length)
      else if alignment.GetOr(Start) == End then Success(PadEnd(str.s, length, fill))
      else Success(PadStart(str.s, length, fill));
    Rewrap(inner, StringError, PadMessage + Display(str))
  }

  /** Copy k of s sits at k * |s| in Repeat(s, n): character i is s[i % |s|]. */
  lemma {:induction false} RepeatAt(s: string, n: nat, i: nat)
    requires s != [] && i < |Repeat(s, n)|
    ensures |Repeat(s, n)| == n * |s|
    ensures Repeat(s, n)[i] == s[i % |s|]
    decreases n
  {
    RepeatLength(s, n);
    if i >= |s| {
      RepeatAt(s, n - 1, i - |s|);
      ModShift(i, |s|);
    }
  }

  lemma {:induction false} RepeatLength(s: string, n: nat)
    ensures |Repeat(s, n)| == n * |s|
    decreases n
  {
    if n > 0 {
      RepeatLength(s, n - 1);
      assert n * |s| == (n - 1) * |s| + |s|;
    }
  }

  lemma ModShift(i: nat, m: nat)
    requires 0 < m <= i
    ensures (i - m) % m == i % m
  {
    Arithmetic.DivModUnique(i, m, (i - m) / m + 1, (i - m) % m);
  }

  /** A blank str gives fillChar repeated length times: length * |fillChar|
      characters, cycling through fillChar. */
  lemma BlankGivesFill(str: MaybeString, length: real, fillChar: Option<string>, alignment: Option<Alignment>)
    requires IsBlank(str) && Trunc(length) >= 0
    ensures var fill := fillChar.GetOr(" ");
      var r := PadString(str, length, fillChar, alignment);
      && r.Success?
      && |r.value| == Trunc(length) * |fill|
      && forall i :: 0 <= i < |r.value| ==> r.value[i] == fill[i % |fill|]
  {
    var fill := fillChar.GetOr(" ");
    var r := PadString(str, length, fillChar, alignment);
    assert r.value == Repeat(fill, Trunc(length));
    RepeatLength(fill, Trunc(length));
    forall i | 0 <= i < |r.value|
      ensures r.value[i] == fill[i % |fill|]
    {
      RepeatAt(fill, Trunc(length), i);
    }
  }

  /** A non-blank str never fails, and comes back unchanged when it is
      already at least `length` long or the fill is empty. */
  lemma NonBlankUnchanged(s: string, length: real, fillChar: Option<string>, alignment: Option<Alignment>)
    requires !IsEmptyString(s)
    requires ToLength(length) <= |s| || fillChar == Some("")
    ensures PadString(Str(s), length, fillChar, alignment) == Success(s)
  {
  }

  /** Padding a non-blank str that is shorter than `length` gives exactly
      `length` characters: str at the end (start alignment, the default) or
      at the beginning ("end"), and the fill, cycled, in the rest. */
  lemma NonBlankPadded(s: string, length: real, fillChar: Option<string>, alignment: Option<Alignment>)
    requires !IsEmptyString(s) && fillChar != Some("") && |s| < ToLength(length)
    ensures var fill := fillChar.GetOr(" ");
      var r := PadString(Str(s), length, fillChar, alignment);
      var k := ToLength(length) - |s|;
      && r.Success?
      && |r.value| == ToLength(length)
      && (alignment.GetOr(Start) == Start ==>
            r.value[k..] == s && forall i :: 0 <= i < k ==> r.value[i] == fill[i % |fill|])
      && (alignment == Some(End) ==>
            r.value[..|s|] == s && forall i :: 0 <= i < k ==> r.value[|s| + i] == fill[i % |fill|])
  {
  }

  /** The examples of the library's tests. */
  lemma PadExamples()
    ensures PadString(Str("123"), 5.0, None, None) == Success("  123")
    ensures PadString(Str("123"), 5.0, Some("0"), None) == Success("00123")
    ensures PadString(Str("123"), 5.0, Some("0"), Some(End)) == Success("12300")
    ensures PadString(Null, 5.0, Some("0"), None) == Success("00000")
    ensures PadString(Undefined, 5.0, Some("0"), None) == Success("00000")
    ensures IsEmptyString("") && !IsEmptyString("Hello")
  {
    assert !IsEmptyString("123") by {
      EmptyIffAllWhitespace("123");
      assert !IsWhitespace("123"[0]);
    }
    assert Trunc(5.0) == 5 && ToLength(5.0) == 5;
    assert PadStart("123", 5.0, " ") == Filler(" ", 2) + "123";
    assert Filler(" ", 2) == "  ";
    assert PadStart("123", 5.0, "0") == Filler("0", 2) + "123";
    assert PadEnd("123", 5.0, "0") == "123" + Filler("0", 2);
    assert Filler("0", 2) == "00";
    assert !IsBlank(Str("123"));
    assert PadString(Str("123"), 5.0, None, None) == Success(PadStart("123", 5.0, " "));
    assert PadString(Str("123"), 5.0, Some("0"), None) == Success(PadStart("123", 5.0, "0"));
    assert PadString(Str("123"), 5.0, Some("0"), Some(End)) == Success(PadEnd("123", 5.0, "0"));
    assert "  " + "123" == "  123" && "00" + "123" == "00123" && "123" + "00" == "12300";
    assert Repeat("0", 5) == "00000" by {
      assert Repeat("0", 1) == "0";
      assert Repeat("0", 2) == "00";
      assert Repeat("0", 3) == "000";
      assert Repeat("0", 4) == "0000";
    }
    assert !IsEmptyString("Hello") by {
      EmptyIffAllWhitespace("Hello");
      assert !IsWhitespace("Hello"[0]);
    }
  }
}
