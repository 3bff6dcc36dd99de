/** JavaScript's `parseInt` with no radix, as the front end applies it to route
    parameters and form values. */
module JsParse {
  import opened Common
  import opened Strings

  /** The white space `parseInt` skips before the number. */
  predicate IsJsSpace(c: char)
  {
    c == ' ' || c == '\t' || c == '\n' || c == '\U{000B}' || c == '\U{000C}' || c == '\r'
    || c == '\U{00A0}' || c == '\U{1680}' || '\U{2000}' <= c <= '\U{200A}'
    || c == '\U{2028}' || c == '\U{2029}' || c == '\U{202F}' || c == '\U{205F}'
    || c == '\U{3000}' || c == '\U{FEFF}'
  }

  function SkipSpace(s: string): (r: string)
    ensures |r| <= |s|
    ensures |r| > 0 ==> !IsJsSpace(r[0])
    ensures forall i :: 0 <= i < |s| && !IsJsSpace(s[i]) ==> |r| > 0
  {
    if |s| > 0 && IsJsSpace(s[0]) then SkipSpace(s[1..]) else s
  }

  /** The value of a hexadecimal digit, if `c` is one. */
  function HexValue(c: char): Option<nat>
  {
    if '0' <= c <= '9' then Some(c as int - '0' as int)
    else if 'a' <= c <= 'f' then Some(c as int - 'a' as int + 10)
    else if 'A' <= c <= 'F' then Some(c as int - 'A' as int + 10)
    else None
  }

  function DigitIn(c: char, radix: nat): Option<nat>
    requires radix == 10 || radix == 16
  {
    match HexValue(c)
    case Some(d) => if d < radix then Some(d) else None
    case None => None
  }

  /** The length of the longest prefix of `s` made of digits in `radix`. */
  function DigitRun(s: string, radix: nat): (n: nat)
    requires radix == 10 || radix == 16
    ensures n <= |s|
    ensures forall i :: 0 <= i < n ==> DigitIn(s[i], radix).Some?
    ensures n < |s| ==> DigitIn(s[n], radix).None?
  {
    if |s| > 0 && DigitIn(s[0], radix).Some? then 1 + DigitRun(s[1..], radix) else 0
  }

  /** The value of a run of digits, most significant first. */
  function RunValue(s: string, radix: nat): nat
    requires radix == 10 || radix == 16
    requires forall i :: 0 <= i < |s| ==> DigitIn(s[i], radix).Some?
  {
    if |s| == 0 then 0
    else RunValue(s[..|s| - 1], radix) * radix + DigitIn(s[|s| - 1], radix).value
  }

  /** `parseInt(s)` with no radix: leading white space, an optional sign, an
      optional `0x`/`0X` prefix that switches to base 16, then the longest run of
      digits; `None` is NaN (no digits at all). */
  function ParseInt(s: string): (r: Option<int>)
    ensures |s| == 0 ==> r.None?
  {
    var t := SkipSpace(s);
    var negative := |t| > 0 && t[0] == '-';
    var u := if |t| > 0 && (t[0] == '-' || t[0] == '+') then t[1..] else t;
    var hex := |u| >= 2 && u[0] == '0' && (u[1] == 'x' || u[1] == 'X');
    var radix := if hex then 16 else 10;
    var body := if hex then u[2..] else u;
    var n := DigitRun(body, radix);
    if n == 0 then None
    else
      var v: int := RunValue(body[..n], radix);
      Some(if negative then -v else v)
  }

  lemma {:induction false} RunValueIsParseDigits(s: string)
    requires AllDigits(s)
    ensures forall i :: 0 <= i < |s| ==> DigitIn(s[i], 10).Some?
    ensures RunValue(s, 10) == ParseDigits(s)
    decreases |s|
  {
    assert forall i :: 0 <= i < |s| ==> DigitIn(s[i], 10) == Some(DigitValue(s[i]));
    if |s| > 1 {
      RunValueIsParseDigits(s[..|s| - 1]);
    } else {
      assert s[..|s| - 1] == [];
    }
  }

  lemma {:induction false} DigitRunAll(s: string, radix: nat)
    requires radix == 10 || radix == 16
    requires forall i :: 0 <= i < |s| ==> DigitIn(s[i], radix).Some?
    ensures DigitRun(s, radix) == |s|
  {
    if |s| > 0 {
      DigitRunAll(s[1..], radix);
    }
  }

  /** A string of decimal digits reads as its decimal value. */
  lemma ParseIntOfDigits(s: string)
    requires AllDigits(s)
    ensures ParseInt(s) == Some(ParseDigits(s))
  {
    assert !IsJsSpace(s[0]);
    assert SkipSpace(s) == s;
    assert |s| >= 2 ==> s[1] != 'x' && s[1] != 'X';
    RunValueIsParseDigits(s);
    DigitRunAll(s, 10);
    assert s[..|s|] == s;
  }

  /** The decimal rendering of a natural number reads back as that number. */
  lemma ParseIntOfDecimal(n: nat)
    ensures ParseInt(NatToString(n)) == Some(n)
  {
    ParseIntOfDigits(NatToString(n));
    ParseNatToString(n);
  }

}
