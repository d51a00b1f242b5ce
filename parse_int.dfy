/**
 * JavaScript's `parseInt(string)` with no radix argument, as the DELETE
 * handler calls it on the `:id` path segment: skip leading white space,
 * take an optional sign, switch to base 16 after a `0x`/`0X` prefix, read
 * the longest run of digits, and give `NaN` (here `None`) when that run is
 * empty. Whatever follows the digits is ignored.
 */
module IntParsing {
  import opened Wrappers

  /** The white space and line terminators that `parseInt` skips. */
  predicate IsWhiteSpace(c: char) {
    || c == '\t' || c == '\n' || c == '\U{000B}' || c == '\U{000C}' || c == '\r'
    || c == ' ' || c == '\U{00A0}' || c == '\U{1680}'
    || ('\U{2000}' <= c <= '\U{200A}')
    || c == '\U{2028}' || c == '\U{2029}' || c == '\U{202F}' || c == '\U{205F}'
    || c == '\U{3000}' || c == '\U{FEFF}'
  }

  /** The value of `c` as a digit in base `radix` (10 or 16), if it is one. */
  function DigitValue(c: char, radix: nat): (r: Option<nat>)
    ensures r.Some? ==> r.value < radix
  {
    if '0' <= c <= '9' && (c as int) - ('0' as int) < radix then Some((c as int) - ('0' as int))
    else if radix == 16 && 'a' <= c <= 'f' then Some((c as int) - ('a' as int) + 10)
    else if radix == 16 && 'A' <= c <= 'F' then Some((c as int) - ('A' as int) + 10)
    else None
  }

  predicate IsDigit(c: char, radix: nat) {
    DigitValue(c, radix).Some?
  }

  predicate AllDigits(s: string, radix: nat) {
    forall i :: 0 <= i < |s| ==> IsDigit(s[i], radix)
  }

  function TrimStart(s: string): (r: string)
    ensures |r| <= |s| && r == s[|s| - |r|..]
    ensures forall i :: 0 <= i < |s| - |r| ==> IsWhiteSpace(s[i])
    ensures r == [] || !IsWhiteSpace(r[0])
  {
    if s != [] && IsWhiteSpace(s[0]) then TrimStart(s[1..]) else s
  }

  /** The longest prefix of `s` made of digits in base `radix`. */
  function DigitPrefix(s: string, radix: nat): (ds: string)
    ensures |ds| <= |s| && ds == s[..|ds|]
    ensures AllDigits(ds, radix)
    ensures |ds| == |s| || !IsDigit(s[|ds|], radix)
  {
    if s != [] && IsDigit(s[0], radix) then [s[0]] + DigitPrefix(s[1..], radix) else []
  }

  /** The number a run of digits denotes, most significant digit first. */
  function DigitsValue(ds: string, radix: nat): nat
    requires AllDigits(ds, radix)
  {
    if ds == [] then 0
    else
      var last := ds[|ds| - 1];
      assert IsDigit(last, radix) && AllDigits(ds[..|ds| - 1], radix);
      DigitsValue(ds[..|ds| - 1], radix) * radix + DigitValue(last, radix).value
  }

  /** `parseInt(s)`; `None` is `NaN`. Only the text after the leading white
      space matters. */
  function ParseInt(s: string): (r: Option<int>)
    ensures r.None? <==> DigitPrefix(Body(TrimStart(s)), Radix(TrimStart(s))) == []
    ensures r.Some? && Negative(TrimStart(s)) ==> r.value <= 0
    ensures r.Some? && !Negative(TrimStart(s)) ==> r.value >= 0
  {
    ParseTrimmed(TrimStart(s))
  }

  /** Sign, base prefix and digits of the text after the white space. */
  function ParseTrimmed(t: string): (r: Option<int>)
    ensures r.None? <==> DigitPrefix(Body(t), Radix(t)) == []
  {
    var ds := DigitPrefix(Body(t), Radix(t));
    if ds == [] then None
    else
      var n: int := DigitsValue(ds, Radix(t));
      Some(if Negative(t) then -n else n)
  }

  /** The text after the sign. */
  function Unsigned(t: string): string {
    if t != [] && (t[0] == '-' || t[0] == '+') then t[1..] else t
  }

  predicate Negative(t: string) {
    t != [] && t[0] == '-'
  }

  predicate HexPrefix(u: string) {
    |u| >= 2 && u[0] == '0' && (u[1] == 'x' || u[1] == 'X')
  }

  function Radix(t: string): nat {
    if HexPrefix(Unsigned(t)) then 16 else 10
  }

  /** The text the digits are read from. */
  function Body(t: string): string {
    var u := Unsigned(t);
    if HexPrefix(u) then u[2..] else u
  }

  // ---------------------------------------------------------------------------
  // Decimal rendering, the partner of parsing

  function DecimalDigit(d: nat): (c: char)
    requires d < 10
    ensures DigitValue(c, 10) == Some(d)
  {
    ['0', '1', '2', '3', '4', '5', '6', '7', '8', '9'][d]
  }

  /** The decimal numeral of `n`, without leading zeros. */
  function ShowNat(n: nat): (r: string)
    ensures r != []
    ensures AllDigits(r, 10)
    ensures n > 0 ==> r[0] != '0'
    ensures n < 10 ==> |r| == 1
  {
    if n < 10 then [DecimalDigit(n)] else ShowNat(n / 10) + [DecimalDigit(n % 10)]
  }

  function ShowInt(n: int): string {
    if n < 0 then "-" + ShowNat(-n) else ShowNat(n)
  }

  lemma {:induction false} DigitsValueShowNat(n: nat)
    ensures DigitsValue(ShowNat(n), 10) == n
  {
    var r := ShowNat(n);
    if n >= 10 {
      DigitsValueShowNat(n / 10);
      assert r[..|r| - 1] == ShowNat(n / 10);
    }
  }

  /** The digit run of `ds + rest` is `ds` when `rest` does not go on with a digit. */
  lemma {:induction false} DigitPrefixStops(ds: string, rest: string, radix: nat)
    requires AllDigits(ds, radix)
    requires rest == [] || !IsDigit(rest[0], radix)
    ensures DigitPrefix(ds + rest, radix) == ds
  {
    if ds != [] {
      DigitPrefixStops(ds[1..], rest, radix);
      assert (ds + rest)[1..] == ds[1..] + rest;
    }
  }

  /** A decimal numeral: digits, with no leading zero unless it is `0`. */
  predicate Numeral(d: string) {
    && d != []
    && AllDigits(d, 10)
    && (|d| > 1 ==> d[0] != '0')
  }

  /** What may follow a numeral without changing what `parseInt` reads. */
  predicate Terminator(rest: string) {
    rest == [] || (!IsDigit(rest[0], 10) && rest[0] != 'x' && rest[0] != 'X')
  }

  /** The sign, base and digits `parseInt` finds in `t`. */
  lemma {:induction false} ShapeOfSigned(negative: bool, d: string, rest: string, t: string)
    requires Numeral(d) && Terminator(rest)
    requires t == (if negative then "-" else "") + d + rest
    ensures Negative(t) == negative && Radix(t) == 10 && Body(t) == d + rest
  {
  }

  /** `parseInt` on an optional minus sign, a numeral and a terminator. */
  lemma {:induction false} ParseTrimmedNumeral(negative: bool, d: string, rest: string, t: string)
    requires Numeral(d) && Terminator(rest)
    requires t == (if negative then "-" else "") + d + rest
    ensures var v: int := DigitsValue(d, 10);
            ParseTrimmed(t) == Some(if negative then -v else v)
  {
    ShapeOfSigned(negative, d, rest, t);
    DigitPrefixStops(d, rest, 10);
    assert DigitPrefix(Body(t), Radix(t)) == d;
  }

  lemma {:induction false} NumeralOfShowNat(m: nat)
    ensures Numeral(ShowNat(m))
  {
  }

  /** Text that starts with a sign or a digit has no white space to skip. */
  lemma {:induction false} TrimStartAtSignOrDigit(t: string)
    requires t != [] && (t[0] == '-' || IsDigit(t[0], 10))
    ensures TrimStart(t) == t
  {
  }

  /** `parseInt` reads back the decimal numeral of any integer, followed by
      anything that neither continues the digits nor turns `0` into `0x`. */
  lemma {:induction false} ParseShowInt(n: int, rest: string)
    requires Terminator(rest)
    ensures ParseInt(ShowInt(n) + rest) == Some(n)
  {
    var m: nat := if n < 0 then -n else n;
    var d := ShowNat(m);
    NumeralOfShowNat(m);
    var t := (if n < 0 then "-" else "") + d + rest;
    assert ShowInt(n) + rest == t;
    assert t[0] == '-' || t[0] == d[0];
    TrimStartAtSignOrDigit(t);
    ParseTrimmedNumeral(n < 0, d, rest, t);
    DigitsValueShowNat(m);
  }

  lemma {:induction false} TrimStartSkips(ws: string, s: string)
    requires forall i :: 0 <= i < |ws| ==> IsWhiteSpace(ws[i])
    ensures TrimStart(ws + s) == TrimStart(s)
  {
    if ws == [] {
      assert ws + s == s;
    } else {
      assert (ws + s)[0] == ws[0];
      assert (ws + s)[1..] == ws[1..] + s;
      TrimStartSkips(ws[1..], s);
    }
  }

  /** Leading white space does not change the result. */
  lemma {:induction false} ParseSkipsWhiteSpace(ws: string, s: string)
    requires forall i :: 0 <= i < |ws| ==> IsWhiteSpace(ws[i])
    ensures ParseInt(ws + s) == ParseInt(s)
  {
    TrimStartSkips(ws, s);
  }

  /** `"abc"` is `NaN`, so the handler answers 400. */
  lemma ParseLettersIsNaN()
    ensures ParseInt("abc") == None
  {
    var t := "abc";
    assert !IsWhiteSpace(t[0]);
    assert TrimStart(t) == t;
    assert !HexPrefix(t);
    assert Body(t) == t && Radix(t) == 10;
    assert DigitValue(t[0], 10) == None;
    assert DigitPrefix(t, 10) == [];
  }

  /** `"12abc"` is 12: the digits before the first non-digit count. */
  lemma ParseDigitsThenLetters()
    ensures ParseInt("12abc") == Some(12)
  {
    assert DecimalDigit(1) == '1' && DecimalDigit(2) == '2';
    assert ShowNat(1) == "1";
    assert ShowNat(12) == ShowNat(1) + "2";
    assert ShowInt(12) + "abc" == "12abc";
    ParseShowInt(12, "abc");
  }

  /** `"-3"` is -3: the sign is kept. */
  lemma ParseNegative()
    ensures ParseInt("-3") == Some(-3)
  {
    assert DecimalDigit(3) == '3';
    assert ShowNat(3) == "3";
    assert ShowInt(-3) + "" == "-3";
    ParseShowInt(-3, "");
  }
}
