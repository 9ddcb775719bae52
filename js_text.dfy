/**
 * The JavaScript string built-ins the dashboard relies on, over `seq<char>`:
 * `String.prototype.includes`, ASCII `toUpperCase`/`toLowerCase`,
 * `parseInt(s, 10)`, `String(n)` for integers, a decimal-only `parseFloat`,
 * and truthiness of an optional string.
 */
module JsText {
  import opened Wrappers

  /** `sub` occurs in `s` starting at index `i`. */
  predicate OccursAt(s: string, sub: string, i: int) {
    0 <= i <= |s| - |sub| && s[i..i + |sub|] == sub
  }

  /** `s.includes(sub)`. */
  predicate Includes(s: string, sub: string) {
    exists i | 0 <= i <= |s| - |sub| :: OccursAt(s, sub, i)
  }

  /** An optional string is truthy when it is present and non-empty. */
  predicate Truthy(s: Option<string>) {
    s.Some? && s.value != ""
  }

  /** `a || b` on optional strings. */
  function Or(a: Option<string>, b: Option<string>): (r: Option<string>)
    ensures Truthy(a) ==> r == a
    ensures !Truthy(a) ==> r == b
  {
    if Truthy(a) then a else b
  }

  /** `${x}` of an optional string: an absent value renders as "undefined". */
  function TemplateText(s: Option<string>): string {
    s.GetOr("undefined")
  }

  // ---------------------------------------------------------------- case

  function UpperChar(c: char): char {
    if 'a' <= c <= 'z' then (c as int - 32) as char else c
  }

  function LowerChar(c: char): char {
    if 'A' <= c <= 'Z' then (c as int + 32) as char else c
  }

  /** `s.toUpperCase()` on ASCII letters. */
  function ToUpper(s: string): (r: string)
    ensures |r| == |s|
    ensures forall i :: 0 <= i < |s| ==> r[i] == UpperChar(s[i])
  {
    seq(|s|, i requires 0 <= i < |s| => UpperChar(s[i]))
  }

  /** `s.toLowerCase()` on ASCII letters. */
  function ToLower(s: string): (r: string)
    ensures |r| == |s|
    ensures forall i :: 0 <= i < |s| ==> r[i] == LowerChar(s[i])
  {
    seq(|s|, i requires 0 <= i < |s| => LowerChar(s[i]))
  }

  lemma ToUpperIdempotent(s: string)
    ensures ToUpper(ToUpper(s)) == ToUpper(s)
  {
    assert forall i :: 0 <= i < |s| ==> ToUpper(ToUpper(s))[i] == ToUpper(s)[i];
  }

  /** Lower-casing keeps every occurrence: if `w` occurs in `s` in any case,
    * the lower-cased `w` occurs in the lower-cased `s`. */
  lemma {:induction false} IncludesToLower(s: string, w: string)
    requires Includes(s, w)
    ensures Includes(ToLower(s), ToLower(w))
  {
    var i :| 0 <= i <= |s| - |w| && OccursAt(s, w, i);
    var ls := ToLower(s);
    assert forall k :: 0 <= k < |w| ==> ls[i..i + |w|][k] == LowerChar(s[i + k]) == LowerChar(w[k]);
    assert ls[i..i + |w|] == ToLower(w);
    assert OccursAt(ls, ToLower(w), i);
  }

  // ---------------------------------------------------------------- parseInt

  predicate IsDigit(c: char) {
    '0' <= c <= '9'
  }

  predicate AllDigits(s: string) {
    forall i :: 0 <= i < |s| ==> IsDigit(s[i])
  }

  function DigitValue(c: char): nat
    requires IsDigit(c)
  {
    c as int - '0' as int
  }

  function DigitChar(d: nat): (c: char)
    requires d < 10
    ensures IsDigit(c) && DigitValue(c) == d
  {
    ('0' as int + d) as char
  }

  /** The white space that `parseInt`/`parseFloat` skip: ECMAScript's
    * WhiteSpace and LineTerminator code points. */
  predicate IsSpace(c: char) {
    c == '\t' || c == '\n' || c == '\U{B}' || c == '\U{C}' || c == '\r' || c == ' '
    || c == '\U{A0}' || c == '\U{1680}' || ('\U{2000}' <= c <= '\U{200A}')
    || c == '\U{2028}' || c == '\U{2029}' || c == '\U{202F}' || c == '\U{205F}'
    || c == '\U{3000}' || c == '\U{FEFF}'
  }

  /** `s` without its leading white space. */
  function TrimStart(s: string): (r: string)
    ensures |r| <= |s| && r == s[|s| - |r|..]
    ensures r == [] || !IsSpace(r[0])
    ensures forall i :: 0 <= i < |s| - |r| ==> IsSpace(s[i])
  {
    if s != [] && IsSpace(s[0]) then TrimStart(s[1..]) else s
  }

  /** The length of the run of decimal digits that starts `s`. */
  function LeadingDigits(s: string): (n: nat)
    ensures n <= |s|
    ensures AllDigits(s[..n])
    ensures n == |s| || !IsDigit(s[n])
  {
    if s != [] && IsDigit(s[0]) then 1 + LeadingDigits(s[1..]) else 0
  }

  /** The number a string of decimal digits denotes. */
  function DigitsValue(d: string): nat
    requires AllDigits(d)
  {
    if d == [] then 0 else DigitsValue(d[..|d| - 1]) * 10 + DigitValue(d[|d| - 1])
  }

  /** The sign and the remainder of a trimmed numeric string. */
  function SignOf(t: string): (r: (bool, string))
    ensures r.1 == (if t != [] && (t[0] == '-' || t[0] == '+') then t[1..] else t)
    ensures r.0 <==> t != [] && t[0] == '-'
  {
    if t != [] && (t[0] == '-' || t[0] == '+') then (t[0] == '-', t[1..]) else (false, t)
  }

  /** `parseInt(s, 10)`; `None` stands for `NaN`. */
  function ParseInt(s: string): Option<int> {
    var (negative, rest) := SignOf(TrimStart(s));
    var n := LeadingDigits(rest);
    if n == 0 then None
    else if negative then Some(-(DigitsValue(rest[..n]) as int))
    else Some(DigitsValue(rest[..n]))
  }

  /** `String(n)` for a natural number. */
  function NatToString(n: nat): (r: string)
    ensures |r| > 0 && AllDigits(r)
  {
    if n < 10 then [DigitChar(n)] else NatToString(n / 10) + [DigitChar(n % 10)]
  }

  /** `String(n)` for an integer. */
  function IntToString(n: int): (r: string)
    ensures |r| > 0
  {
    if n < 0 then "-" + NatToString(-n) else NatToString(n)
  }

  lemma {:induction false} DigitsOfNatToString(n: nat)
    ensures DigitsValue(NatToString(n)) == n
  {
    var r := NatToString(n);
    if n >= 10 {
      var d := NatToString(n / 10);
      assert r[..|r| - 1] == d;
      DigitsOfNatToString(n / 10);
    }
  }

  lemma {:induction false} LeadingDigitsOfDigits(d: string, tail: string)
    requires AllDigits(d)
    requires tail == [] || !IsDigit(tail[0])
    ensures LeadingDigits(d + tail) == |d|
  {
    if d != [] {
      assert (d + tail)[1..] == d[1..] + tail;
      LeadingDigitsOfDigits(d[1..], tail);
    } else {
      assert d + tail == tail;
    }
  }

  lemma SignOfSigned(s: string, rest: string)
    requires s == "-" + rest
    ensures SignOf(TrimStart(s)) == (true, rest)
  {
    assert s[0] == '-' && !IsSpace(s[0]);
    assert s[1..] == rest;
  }

  lemma SignOfUnsigned(s: string)
    requires s != [] && IsDigit(s[0])
    ensures SignOf(TrimStart(s)) == (false, s)
  {
    assert !IsSpace(s[0]);
  }

  /** What `parseInt` returns once the sign and the digit run are known. */
  lemma ParseIntOf(s: string, negative: bool, rest: string, k: nat)
    requires SignOf(TrimStart(s)) == (negative, rest)
    requires 0 < k <= |rest| && LeadingDigits(rest) == k
    ensures ParseInt(s) == Some(if negative then -(DigitsValue(rest[..k]) as int) else DigitsValue(rest[..k]))
  {
  }

  lemma ParseIntOfNegative(m: nat, tail: string)
    requires tail == [] || !IsDigit(tail[0])
    ensures ParseInt("-" + NatToString(m) + tail) == Some(-(m as int))
  {
    var digits := NatToString(m);
    DigitsOfNatToString(m);
    var rest := digits + tail;
    LeadingDigitsOfDigits(digits, tail);
    assert rest[..|digits|] == digits;
    var s := "-" + digits + tail;
    assert s == "-" + rest;
    SignOfSigned(s, rest);
    ParseIntOf(s, true, rest, |digits|);
  }

  lemma ParseIntOfNonNegative(m: nat, tail: string)
    requires tail == [] || !IsDigit(tail[0])
    ensures ParseInt(NatToString(m) + tail) == Some(m)
  {
    var digits := NatToString(m);
    DigitsOfNatToString(m);
    var rest := digits + tail;
    LeadingDigitsOfDigits(digits, tail);
    assert rest[..|digits|] == digits;
    SignOfUnsigned(rest);
    ParseIntOf(rest, false, rest, |digits|);
  }

  /** `parseInt` reads only the leading number: anything after the digits that
    * does not start with a digit is ignored ("12abc" parses as 12). */
  lemma ParseIntIgnoresTail(n: int, tail: string)
    requires tail == [] || !IsDigit(tail[0])
    ensures ParseInt(IntToString(n) + tail) == Some(n)
  {
    if n < 0 {
      ParseIntOfNegative(-n, tail);
    } else {
      ParseIntOfNonNegative(n, tail);
    }
  }

  /** `parseInt(String(n), 10) == n`: printing an integer and parsing it back
    * gives the integer. */
  lemma ParseIntOfIntToString(n: int)
    ensures ParseInt(IntToString(n)) == Some(n)
  {
    ParseIntIgnoresTail(n, []);
    assert IntToString(n) + [] == IntToString(n);
  }

  /** A string with no digit after its sign parses as `NaN`; this covers
    * `String(undefined)` and `String(null)`. */
  lemma ParseIntNaN(s: string)
    requires var t := SignOf(TrimStart(s)).1; t == [] || !IsDigit(t[0])
    ensures ParseInt(s) == None
  {
  }

  // ---------------------------------------------------------------- parseFloat

  /** A string that starts with a character that is neither white space, a
    * sign nor a digit, such as "null" or "undefined", parses to `NaN`. */
  lemma ParseIntNonNumeric(s: string)
    requires s != [] && !IsSpace(s[0]) && s[0] != '-' && s[0] != '+' && !IsDigit(s[0])
    ensures ParseInt(s) == None
  {
    assert TrimStart(s) == s;
  }

  /** The value of the digits after a decimal point: `0.d1d2...dk`. */
  function FractionValue(fp: string): (v: real)
    requires AllDigits(fp)
    ensures 0.0 <= v < 1.0
  {
    if fp == [] then 0.0 else (DigitValue(fp[0]) as real + FractionValue(fp[1..])) / 10.0
  }

  /** The value of the decimal `ip.fp`. */
  function DecimalValue(ip: string, fp: string): real
    requires AllDigits(ip) && AllDigits(fp)
  {
    DigitsValue(ip) as real + FractionValue(fp)
  }

  /** The unsigned decimal that starts `rest`: digits, then optionally a point
    * and more digits, at least one digit in all. */
  function DecimalPrefix(rest: string): (r: Option<real>)
    ensures r.Some? ==> exists k :: 0 <= k < |rest| && IsDigit(rest[k])
  {
    var n := LeadingDigits(rest);
    var fraction := if n < |rest| && rest[n] == '.' then rest[n + 1..] else [];
    var m := LeadingDigits(fraction);
    if n == 0 && m == 0 then None
    else
      assert IsDigit(if n > 0 then rest[0] else rest[n + 1]);
      Some(DecimalValue(rest[..n], fraction[..m]))
  }

  /** `v`, negated when a minus sign was read. */
  function Signed(negative: bool, v: real): real {
    if negative then -v else v
  }

  /** `parseFloat(s)` for decimal notation (sign, digits, optional fraction);
    * `None` stands for `NaN`. */
  function ParseDecimal(s: string): (r: Option<real>)
    ensures r.Some? ==> exists k :: 0 <= k < |s| && IsDigit(s[k])
  {
    var (negative, rest) := SignOf(TrimStart(s));
    match DecimalPrefix(rest)
    case None => None
    case Some(v) =>
      assert rest == s[|s| - |rest|..];
      Some(Signed(negative, v))
  }

  /** The text of an optional sign character. */
  function SignText(sign: Option<char>): string {
    if sign.Some? then [sign.value] else ""
  }

  /** The sign a trimmed numeric string starts with, and what follows it. */
  lemma SignSplit(sign: Option<char>, rest: string)
    requires sign == None || sign == Some('-') || sign == Some('+')
    requires rest != [] && !IsSpace(rest[0]) && rest[0] != '-' && rest[0] != '+'
    ensures SignOf(TrimStart(SignText(sign) + rest)) == (sign == Some('-'), rest)
  {
    var s := SignText(sign) + rest;
    if sign.Some? {
      assert s == [sign.value] + rest;
      assert s[0] == sign.value && !IsSpace(s[0]);
      assert TrimStart(s) == s;
      assert s[1..] == rest;
    } else {
      assert s == rest;
      assert TrimStart(s) == s;
    }
  }

  /** `parseFloat` once the sign and the unsigned decimal are known. */
  lemma ParseDecimalSplit(s: string, negative: bool, rest: string, v: real)
    requires SignOf(TrimStart(s)) == (negative, rest)
    requires DecimalPrefix(rest) == Some(v)
    ensures ParseDecimal(s) == Some(Signed(negative, v))
  {
  }

  lemma DecimalPrefixOf(ip: string, fp: string, tail: string)
    requires AllDigits(ip) && AllDigits(fp) && (ip != [] || fp != [])
    requires tail == [] || !IsDigit(tail[0])
    ensures DecimalPrefix(ip + "." + fp + tail) == Some(DecimalValue(ip, fp))
  {
    var rest := ip + "." + fp + tail;
    LeadingDigitsOfDigits(ip, "." + fp + tail);
    assert rest == ip + ("." + fp + tail);
    assert rest[..|ip|] == ip;
    assert rest[|ip|] == '.';
    var fraction := rest[|ip| + 1..];
    assert fraction == fp + tail;
    LeadingDigitsOfDigits(fp, tail);
    assert fraction[..|fp|] == fp;
  }

  lemma DecimalPrefixWhole(ip: string, tail: string)
    requires AllDigits(ip) && ip != []
    requires tail == [] || (!IsDigit(tail[0]) && tail[0] != '.')
    ensures DecimalPrefix(ip + tail) == Some(DigitsValue(ip) as real)
  {
    var rest := ip + tail;
    LeadingDigitsOfDigits(ip, tail);
    assert rest[..|ip|] == ip;
    assert LeadingDigits([]) == 0;
  }

  /** `parseFloat` of an optionally signed decimal `ip.fp` (either part may be
    * empty, not both) is the integer part plus the value of the fraction's
    * digits; whatever follows the fraction's digits is ignored. */
  lemma ParseDecimalOf(sign: Option<char>, ip: string, fp: string, tail: string)
    requires sign == None || sign == Some('-') || sign == Some('+')
    requires AllDigits(ip) && AllDigits(fp) && (ip != [] || fp != [])
    requires tail == [] || !IsDigit(tail[0])
    ensures var v := DecimalValue(ip, fp);
            ParseDecimal(SignText(sign) + (ip + "." + fp + tail)) == Some(Signed(sign == Some('-'), v))
  {
    var rest := ip + "." + fp + tail;
    var v := DecimalValue(ip, fp);
    assert ParseDecimal(SignText(sign) + rest) == Some(Signed(sign == Some('-'), v)) by {
      assert rest[0] == if ip != [] then ip[0] else '.';
      SignSplit(sign, rest);
      DecimalPrefixOf(ip, fp, tail);
      ParseDecimalSplit(SignText(sign) + rest, sign == Some('-'), rest, v);
    }
  }

  /** `parseFloat` of an optionally signed run of digits not followed by a
    * digit or a decimal point is that integer. */
  lemma ParseDecimalWhole(sign: Option<char>, ip: string, tail: string)
    requires sign == None || sign == Some('-') || sign == Some('+')
    requires AllDigits(ip) && ip != []
    requires tail == [] || (!IsDigit(tail[0]) && tail[0] != '.')
    ensures var v := DigitsValue(ip) as real;
            ParseDecimal(SignText(sign) + (ip + tail)) == Some(Signed(sign == Some('-'), v))
  {
    var rest := ip + tail;
    var v := DigitsValue(ip) as real;
    assert ParseDecimal(SignText(sign) + rest) == Some(Signed(sign == Some('-'), v)) by {
      assert rest[0] == ip[0];
      SignSplit(sign, rest);
      DecimalPrefixWhole(ip, tail);
      ParseDecimalSplit(SignText(sign) + rest, sign == Some('-'), rest, v);
    }
  }

  /** The "-" a standings feed shows for a missing win percentage is NaN to
    * `parseFloat`. */
  lemma ParseDecimalDash()
    ensures ParseDecimal("-") == None
  {
    assert TrimStart("-") == "-";
    assert SignOf("-") == (true, "");
    assert DecimalPrefix("") == None;
  }
}
