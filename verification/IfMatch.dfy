// The If-Match header of a record change (section 13.1.1 of RFC 9110), as the runtime reads it.
module IfMatch {
  import opened Results

  datatype Failure = MissingVersion

  const MAX_SAFE: nat := 9_007_199_254_740_991

  predicate IsDigit(c: char) {
    '0' <= c <= '9'
  }

  predicate IsSpace(c: char) {
    c in " \t\n\r\U{000B}\U{000C}\U{00A0}\U{1680}\U{2028}\U{2029}\U{202F}\U{205F}\U{3000}\U{FEFF}" ||
      '\U{2000}' <= c <= '\U{200A}'
  }

  lemma DigitIsPlain(c: char)
    requires IsDigit(c)
    ensures !IsSpace(c) && c != '+' && c != '-' && c != '"' && c != 'W'
  {
  }

  function DigitValue(c: char): nat
    requires IsDigit(c)
  {
    (c - '0') as nat
  }

  // The leading digits.
  function Digits(s: string): string {
    if s == "" || !IsDigit(s[0]) then "" else [s[0]] + Digits(s[1..])
  }

  predicate AllDigits(s: string) {
    forall k :: 0 <= k < |s| ==> IsDigit(s[k])
  }

  function Value(s: string): nat
    requires AllDigits(s)
  {
    if s == "" then 0 else 10 * Value(s[..|s| - 1]) + DigitValue(s[|s| - 1])
  }

  lemma {:induction false} DigitsAreDigits(s: string)
    ensures AllDigits(Digits(s))
  {
    if s != "" && IsDigit(s[0]) { DigitsAreDigits(s[1..]); }
  }

  function SkipSpaces(s: string): string {
    if s != "" && IsSpace(s[0]) then SkipSpaces(s[1..]) else s
  }

  // The number that the text starts with; what follows it is ignored.
  function ParseInt(s: string): Option<int> {
    var t := SkipSpaces(s);
    var u := if t != "" && t[0] in "+-" then t[1..] else t;
    DigitsAreDigits(u);
    if Digits(u) == "" then None
    else Some(if t[0] == '-' then 0 - Value(Digits(u)) else Value(Digits(u)))
  }

  function WithoutWeak(s: string): string {
    if |s| >= 2 && s[..2] == "W/" then s[2..] else s
  }

  function WithoutQuotes(s: string): string {
    var t := if s != "" && s[0] == '"' then s[1..] else s;
    if t != "" && t[|t| - 1] == '"' then t[..|t| - 1] else t
  }

  function ExpectedVersion(header: Option<string>): Result<int, Failure> {
    if header.None? then Err(MissingVersion)
    else
      match ParseInt(WithoutQuotes(WithoutWeak(header.value)))
      case None => Err(MissingVersion)
      case Some(n) => if 1 <= n <= MAX_SAFE then Ok(n) else Err(MissingVersion)
  }

  // ---------------------------------------------------------------- round trip

  function Print(n: nat): string {
    (if n < 10 then "" else Print(n / 10)) + [('0' as int + n % 10) as char]
  }

  lemma {:induction false} PrintedValue(n: nat)
    ensures Print(n) != "" && AllDigits(Print(n)) && Value(Print(n)) == n
  {
    var s := Print(n);
    if n >= 10 {
      PrintedValue(n / 10);
      assert s[..|s| - 1] == Print(n / 10);
    } else {
      assert s[..|s| - 1] == "";
    }
  }

  lemma {:induction false} DigitsOf(s: string, rest: string)
    requires AllDigits(s) && (rest == "" || !IsDigit(rest[0]))
    ensures Digits(s + rest) == s
  {
    if s == "" {
      assert s + rest == rest;
    } else {
      assert (s + rest)[1..] == s[1..] + rest;
      DigitsOf(s[1..], rest);
    }
  }

  lemma ParsesDigits(s: string)
    requires s != "" && AllDigits(s)
    ensures ParseInt(s) == Some(Value(s))
  {
    DigitIsPlain(s[0]);
    assert SkipSpaces(s) == s;
    DigitsOf(s, "");
    assert s + "" == s;
  }

  lemma UnquotesDigits(s: string)
    requires s != "" && AllDigits(s)
    ensures WithoutQuotes("\"" + s + "\"") == s && WithoutQuotes(s) == s && WithoutWeak(s) == s
  {
    DigitIsPlain(s[0]);
    DigitIsPlain(s[|s| - 1]);
    var t := ("\"" + s + "\"")[1..];
    assert t == s + "\"" && t[..|s|] == s;
    assert |s| >= 2 ==> s[..2][0] == s[0];
  }

  datatype Form = Strong | Weak | Bare

  function Tag(form: Form, n: nat): string {
    match form
    case Strong => "\"" + Print(n) + "\""
    case Weak => "W/\"" + Print(n) + "\""
    case Bare => Print(n)
  }

  // A version sent as a strong tag, as a weak one or bare is read as that version, exactly when it is
  // a positive safe integer.
  lemma TagRoundTrip(form: Form, n: nat)
    ensures ExpectedVersion(Some(Tag(form, n))) ==
      if 1 <= n <= 9_007_199_254_740_991 then Ok(n) else Err(MissingVersion)
  {
    var p := Print(n);
    PrintedValue(n);
    ParsesDigits(p);
    UnquotesDigits(p);
    TagText(p);
  }

  lemma TagText(p: string)
    requires p != "" && AllDigits(p)
    ensures WithoutWeak("W/\"" + p + "\"") == "\"" + p + "\"" && WithoutWeak("\"" + p + "\"") == "\"" + p + "\""
  {
    var weak := "W/\"" + p + "\"";
    assert weak[..2] == "W/" && weak[2..] == "\"" + p + "\"";
    assert ("\"" + p + "\"")[..2][0] == '"';
  }

  // The characters that trimming takes off, one by one.
  lemma SpaceLaw(c: char)
    ensures IsSpace(c) <==>
      || c in ['\t', '\n', '\U{000B}', '\U{000C}', '\r', ' ', '\U{00A0}', '\U{1680}']
      || c in ['\U{2000}', '\U{2001}', '\U{2002}', '\U{2003}', '\U{2004}', '\U{2005}', '\U{2006}', '\U{2007}']
      || c in ['\U{2008}', '\U{2009}', '\U{200A}', '\U{2028}', '\U{2029}', '\U{202F}', '\U{205F}', '\U{3000}']
      || c == '\U{FEFF}'
  {
  }
}
