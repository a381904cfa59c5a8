/**
 * Scalar values exchanged between the grid and the records, and the pieces of
 * the .NET runtime the core relies on: String.Trim, Int32 parsing and
 * formatting.  Conversions whose rules live in the runtime or in the
 * spreadsheet library (culture-dependent number and date text, exact date
 * parsing, Convert.ToDecimal, Convert.ToBoolean, Convert.ChangeType) are not
 * defined here: they are fields of a `Library` value that callers supply.
 */
module Values {
  import opened Wrappers

  /** System.DateTime, identified by its tick count.  DateTime.MinValue is tick 0. */
  datatype DateTime = DateTime(ticks: int)

  const MinValue: DateTime := DateTime(0)

  /** What a grid cell holds. */
  datatype CellValue =
    | Blank
    | Text(text: string)
    | Number(number: real)
    | Boolean(flag: bool)
    | Date(date: DateTime)

  /** A value held by a record property: a boxed .NET object or null. */
  datatype Value =
    | Null
    | Str(s: string)
    | Int(i: int)
    | Dec(d: real)
    | Bool(b: bool)
    | DateValue(date: DateTime)
    | Boxed(typeName: string, text: string)

  /**
   * Runtime and library behaviour the core calls without defining it.  Each
   * field is the named call; a `Failure` carries the message of the exception
   * the call throws.
   */
  datatype Library = Library(
    numberText: real -> string,                          // a numeric cell's ToString()
    booleanText: bool -> string,                         // a boolean cell's ToString()
    dateText: DateTime -> string,                        // DateTime.ToString()
    decimalText: real -> string,                         // decimal.ToString()
    formatDate: (DateTime, string) -> string,            // DateTime.ToString(format)
    parseExactDate: (string, string) -> Option<DateTime>, // DateTime.TryParseExact(text, format, InvariantCulture)
    parseDecimal: string -> Result<real, string>,        // Convert.ToDecimal(string)
    toBoolean: CellValue -> Result<bool, string>,        // Convert.ToBoolean(object)
    changeType: (CellValue, string) -> Result<Value, string> // Convert.ChangeType(object, type)
  )

  /** `cell.Value.ToString()`: a blank cell reads as the empty string. */
  function CellText(lib: Library, v: CellValue): string {
    match v
    case Blank => ""
    case Text(s) => s
    case Number(x) => lib.numberText(x)
    case Boolean(b) => lib.booleanText(b)
    case Date(d) => lib.dateText(d)
  }

  /** `value?.ToString()` for a property value; `None` is a null string. */
  function DisplayText(lib: Library, v: Value): (r: Option<string>)
    ensures r.None? <==> v.Null?
  {
    match v
    case Null => None
    case Str(s) => Some(s)
    case Int(i) => Some(IntToString(i))
    case Dec(d) => Some(lib.decimalText(d))
    case Bool(b) => Some(if b then "True" else "False")
    case DateValue(d) => Some(lib.dateText(d))
    case Boxed(_, text) => Some(text)
  }

  // ---------------------------------------------------------------------
  // String.Trim

  /** Char.IsWhiteSpace: the Unicode space separators, line and paragraph separators, and U+0009..U+000D, U+0085. */
  predicate IsWhiteSpace(c: char) {
    c in WhiteSpace
  }

  const WhiteSpace: set<char> := {
    '\U{0009}', '\U{000A}', '\U{000B}', '\U{000C}', '\U{000D}', '\U{0020}', '\U{0085}', '\U{00A0}',
    '\U{1680}', '\U{2000}', '\U{2001}', '\U{2002}', '\U{2003}', '\U{2004}', '\U{2005}', '\U{2006}',
    '\U{2007}', '\U{2008}', '\U{2009}', '\U{200A}', '\U{2028}', '\U{2029}', '\U{202F}', '\U{205F}',
    '\U{3000}'
  }

  predicate AllWhiteSpace(s: string) {
    forall i :: 0 <= i < |s| ==> IsWhiteSpace(s[i])
  }

  /** Neither end of `s` is white space. */
  predicate IsTrimmed(s: string) {
    s == [] || (!IsWhiteSpace(s[0]) && !IsWhiteSpace(s[|s| - 1]))
  }

  function TrimStart(s: string): (r: string)
    ensures |r| <= |s| && r == s[|s| - |r|..]
    ensures r == [] || !IsWhiteSpace(r[0])
    decreases |s|
  {
    if s != [] && IsWhiteSpace(s[0]) then TrimStart(s[1..]) else s
  }

  function TrimEnd(s: string): (r: string)
    ensures |r| <= |s| && r == s[..|r|]
    ensures r == [] || !IsWhiteSpace(r[|r| - 1])
    decreases |s|
  {
    if s != [] && IsWhiteSpace(s[|s| - 1]) then TrimEnd(s[..|s| - 1]) else s
  }

  /** String.Trim(): white space removed from both ends, nothing else. */
  function Trim(s: string): (r: string)
    ensures IsTrimmed(r)
  {
    var t := TrimStart(s);
    var r := TrimEnd(t);
    assert r != [] ==> r[0] == t[0];
    r
  }

  lemma {:induction false} TrimStartSkipsWhiteSpace(w: string, s: string)
    requires AllWhiteSpace(w)
    ensures TrimStart(w + s) == TrimStart(s)
    decreases |w|
  {
    if w == [] {
      assert w + s == s;
    } else {
      assert (w + s)[1..] == w[1..] + s;
      TrimStartSkipsWhiteSpace(w[1..], s);
    }
  }

  lemma {:induction false} TrimEndSkipsWhiteSpace(s: string, w: string)
    requires AllWhiteSpace(w)
    ensures TrimEnd(s + w) == TrimEnd(s)
    decreases |w|
  {
    if w == [] {
      assert s + w == s;
    } else {
      assert (s + w)[..|s + w| - 1] == s + w[..|w| - 1];
      TrimEndSkipsWhiteSpace(s, w[..|w| - 1]);
    }
  }

  /** Trimming removes exactly the white space padded around an already trimmed string. */
  lemma TrimRemovesPadding(w1: string, s: string, w2: string)
    requires AllWhiteSpace(w1) && AllWhiteSpace(w2) && IsTrimmed(s)
    ensures Trim(w1 + s + w2) == s
  {
    assert w1 + s + w2 == w1 + (s + w2);
    TrimStartSkipsWhiteSpace(w1, s + w2);
    if s == [] {
      assert s + w2 == [] + w2;
      TrimStartSkipsWhiteSpace(w2, []);
      assert TrimStart(s + w2) == [];
    } else {
      assert TrimStart(s + w2) == s + w2;
    }
    TrimEndSkipsWhiteSpace(s, w2);
  }

  /** White space appended after a string that is not all white space survives TrimStart unchanged. */
  lemma {:induction false} TrimStartKeepsTail(s: string, w: string)
    requires !AllWhiteSpace(s)
    ensures TrimStart(s + w) == TrimStart(s) + w
    decreases |s|
  {
    if IsWhiteSpace(s[0]) {
      assert (s + w)[1..] == s[1..] + w;
      TrimStartKeepsTail(s[1..], w);
    } else {
      assert (s + w)[0] == s[0];
    }
  }

  /** Trimming ignores white space padded around any string. */
  lemma TrimIgnoresPadding(w1: string, s: string, w2: string)
    requires AllWhiteSpace(w1) && AllWhiteSpace(w2)
    ensures Trim(w1 + s + w2) == Trim(s)
  {
    assert w1 + s + w2 == w1 + (s + w2);
    TrimStartSkipsWhiteSpace(w1, s + w2);
    if AllWhiteSpace(s) {
      assert AllWhiteSpace(s + w2);
      TrimStartSkipsWhiteSpace(s + w2, []);
      TrimStartSkipsWhiteSpace(s, []);
      assert s + w2 + [] == s + w2 && s + [] == s;
    } else {
      TrimStartKeepsTail(s, w2);
      TrimEndSkipsWhiteSpace(TrimStart(s), w2);
    }
  }

  // ---------------------------------------------------------------------
  // Int32 text

  const Int32Min: int := -0x8000_0000
  const Int32Max: int := 0x7FFF_FFFF

  const FormatMessage: string := "Input string was not in a correct format."
  const OverflowMessage: string := "Value was either too large or too small for an Int32."

  predicate IsDigit(c: char) { '0' <= c <= '9' }

  predicate IsDigits(s: string) {
    forall i :: 0 <= i < |s| ==> IsDigit(s[i])
  }

  function DigitChar(d: nat): char
    requires d < 10
  {
    "0123456789"[d]
  }

  /** The value of a decimal digit string, most significant digit first. */
  function DigitsValue(s: string): nat
    requires IsDigits(s)
    decreases |s|
  {
    if s == [] then 0
    else DigitsValue(s[..|s| - 1]) * 10 + ((s[|s| - 1] as int) - ('0' as int))
  }

  /** n.ToString() for n >= 0. */
  function NatToString(n: nat): (s: string)
    ensures s != [] && IsDigits(s)
    decreases n
  {
    if n < 10 then [DigitChar(n)] else NatToString(n / 10) + [DigitChar(n % 10)]
  }

  /** Int32.ToString() with the invariant culture's "-" sign. */
  function IntToString(n: int): string {
    if n < 0 then "-" + NatToString(-n) else NatToString(n)
  }

  /** One or more decimal digits. */
  predicate IsNumeral(d: string) {
    d != [] && IsDigits(d)
  }

  /** The syntax Int32.Parse accepts once white space is trimmed: an optional sign, then a numeral. */
  predicate WellFormedInt(s: string) {
    IsNumeral(s) || (s != [] && (s[0] == '-' || s[0] == '+') && IsNumeral(s[1..]))
  }

  /** The value a well-formed integer text denotes, whatever its magnitude. */
  function IntValue(s: string): int
    requires WellFormedInt(s)
  {
    if s[0] == '-' then -(DigitsValue(s[1..]) as int)
    else if s[0] == '+' then DigitsValue(s[1..])
    else DigitsValue(s)
  }

  /**
   * Int32.Parse on a string with no surrounding white space: an optional
   * sign, then one or more decimal digits, within the Int32 range.  A
   * malformed string throws FormatException, an out-of-range one
   * OverflowException.
   */
  function ParseInt32(s: string): (r: Result<int, string>)
    ensures r.Success? <==> WellFormedInt(s) && Int32Min <= IntValue(s) <= Int32Max
    ensures r.Success? ==> r.value == IntValue(s) && Int32Min <= r.value <= Int32Max
    ensures r.Success? ==> s != [] && (IsDigit(s[0]) || s[0] == '-' || s[0] == '+')
    ensures r == Failure(FormatMessage) <==> !WellFormedInt(s)
    ensures r == Failure(OverflowMessage) <==> WellFormedInt(s) && !(Int32Min <= IntValue(s) <= Int32Max)
    ensures r.Failure? ==> r.error in {FormatMessage, OverflowMessage}
  {
    var signed := s != [] && (s[0] == '-' || s[0] == '+');
    var digits := if signed then s[1..] else s;
    if digits == [] || !IsDigits(digits) then Failure(FormatMessage)
    else
      var magnitude: int := DigitsValue(digits);
      var n: int := if signed && s[0] == '-' then -magnitude else magnitude;
      if n < Int32Min || Int32Max < n then Failure(OverflowMessage) else Success(n)
  }

  /** A digit followed by a letter is no integer; a sign alone is none either; "+7" is 7. */
  lemma ParseInt32Examples()
    ensures ParseInt32("1a") == Failure(FormatMessage)
    ensures ParseInt32("-") == Failure(FormatMessage)
    ensures ParseInt32("") == Failure(FormatMessage)
    ensures ParseInt32("+7") == Success(7)
    ensures ParseInt32("-42") == Success(-42)
  {
    assert !IsDigits("1a") by { assert !IsDigit("1a"[1]); }
    assert "+7"[1..] == "7" && DigitsValue("7") == 7;
    assert "-42"[1..] == "42" && "42"[..1] == "4" && DigitsValue("42") == 42;
  }

  lemma {:induction false} DigitsOfNat(n: nat)
    ensures DigitsValue(NatToString(n)) == n
    decreases n
  {
    var s := NatToString(n);
    if n >= 10 {
      assert s[..|s| - 1] == NatToString(n / 10);
      DigitsOfNat(n / 10);
    }
  }

  lemma IntToStringIsTrimmed(n: int)
    ensures IsTrimmed(IntToString(n))
  {
    var s := NatToString(if n < 0 then -n else n);
    assert !IsWhiteSpace(s[0]) && !IsWhiteSpace(s[|s| - 1]);
  }

  /** Every Int32 survives formatting followed by parsing. */
  lemma ParseFormatsRoundTrip(n: int)
    requires Int32Min <= n <= Int32Max
    ensures ParseInt32(IntToString(n)) == Success(n)
  {
    var m: nat := if n < 0 then -n else n;
    var d := NatToString(m);
    DigitsOfNat(m);
    if n < 0 {
      var s := "-" + d;
      assert s[0] == '-' && s[1..] == d;
      assert IntToString(n) == s;
    } else {
      assert IsDigit(d[0]);
      assert IntToString(n) == d;
    }
  }
}
