/** String operations the claims code relies on: case mapping, `includes`,
    `startsWith`, Java's `trim`, decimal rendering and parsing of integers,
    and `Array.prototype.join`. A Dafny `char` is a Unicode scalar value, so a
    string here is a sequence of code points; where JavaScript measures or cuts a
    string in UTF-16 code units, `Utf16Length` and `FitPrefix` give that measure.
    Java's `trim` and the ASCII case mappings treat a supplementary character as
    its two surrogates would be treated, so they need no such measure. */
module Strings {

  // ---------------------------------------------------------------- case mapping

  predicate IsUpper(c: char) { 'A' <= c <= 'Z' }

  predicate IsLower(c: char) { 'a' <= c <= 'z' }

  function LowerChar(c: char): char
  {
    if IsUpper(c) then (c as int + 32) as char else c
  }

  function UpperChar(c: char): char
  {
    if IsLower(c) then (c as int - 32) as char else c
  }

  /** `toLowerCase()` restricted to ASCII letters. */
  function ToLower(s: string): (r: string)
    ensures |r| == |s|
    ensures forall i :: 0 <= i < |r| ==> !IsUpper(r[i])
    ensures forall i :: 0 <= i < |r| && !IsUpper(s[i]) ==> r[i] == s[i]
  {
    if |s| == 0 then "" else [LowerChar(s[0])] + ToLower(s[1..])
  }

  /** `toUpperCase()` restricted to ASCII letters. */
  function ToUpper(s: string): (r: string)
    ensures |r| == |s|
    ensures forall i :: 0 <= i < |r| ==> !IsLower(r[i])
    ensures forall i :: 0 <= i < |r| && !IsLower(s[i]) ==> r[i] == s[i]
  {
    if |s| == 0 then "" else [UpperChar(s[0])] + ToUpper(s[1..])
  }

  /** Upper-casing works code unit by code unit. */
  lemma {:induction false} ToUpperAt(s: string)
    ensures forall i :: 0 <= i < |s| ==> ToUpper(s)[i] == UpperChar(s[i])
  {
    if |s| > 0 {
      ToUpperAt(s[1..]);
      assert forall i :: 1 <= i < |s| ==> ToUpper(s)[i] == ToUpper(s[1..])[i - 1];
    }
  }

  lemma {:induction false} ToLowerIdempotent(s: string)
    ensures ToLower(ToLower(s)) == ToLower(s)
  {
    if |s| > 0 {
      ToLowerIdempotent(s[1..]);
      assert ToLower(s)[1..] == ToLower(s[1..]);
    }
  }

  // ---------------------------------------------------------------- UTF-16 length

  /** Code units a character takes in UTF-16: two above the Basic Multilingual
      Plane, one otherwise. */
  function Units(c: char): (n: nat)
    ensures n == 1 || n == 2
  {
    if c as int >= 0x1_0000 then 2 else 1
  }

  predicate InBmp(c: char) { c as int < 0x1_0000 }

  /** JavaScript's `length`: the number of UTF-16 code units, between one and two
      per character. */
  function Utf16Length(s: string): (n: nat)
    ensures |s| <= n <= 2 * |s|
  {
    if |s| == 0 then 0 else Units(s[0]) + Utf16Length(s[1..])
  }

  /** The UTF-16 length equals the number of characters exactly when every
      character is in the Basic Multilingual Plane. */
  lemma {:induction false} Utf16LengthIsLength(s: string)
    ensures Utf16Length(s) == |s| <==> forall i :: 0 <= i < |s| ==> InBmp(s[i])
  {
    if |s| > 0 {
      Utf16LengthIsLength(s[1..]);
      assert forall i :: 0 < i < |s| ==> s[i] == s[1..][i - 1];
    }
  }

  /** The code units of a prefix one character longer. */
  lemma Utf16LengthSnoc(s: string, k: nat)
    requires k < |s|
    ensures Utf16Length(s[..k + 1]) == Utf16Length(s[..k]) + Units(s[k])
  {
    if k > 0 {
      assert s[..k + 1][1..] == s[1..][..k];
      assert s[..k][1..] == s[1..][..k - 1];
      Utf16LengthSnoc(s[1..], k - 1);
    }
  }

  /** How many leading characters fit in `n` code units: the longest prefix
      whose UTF-16 length is at most `n`. */
  function FitPrefix(s: string, n: nat): (k: nat)
    ensures k <= |s| && Utf16Length(s[..k]) <= n
    ensures k < |s| ==> Utf16Length(s[..k + 1]) > n
  {
    if |s| == 0 || Units(s[0]) > n then
      assert s[..0] == [];
      assert |s| > 0 ==> s[..1] == [s[0]];
      0
    else
      var j := FitPrefix(s[1..], n - Units(s[0]));
      assert s[..j + 1][1..] == s[1..][..j];
      assert j + 1 < |s| ==> s[..j + 2][1..] == s[1..][..j + 1];
      j + 1
  }

  /** Within the Basic Multilingual Plane a code-unit cut is a character cut:
      `substring(0, n)` keeps `n` characters. */
  lemma {:induction false} FitPrefixInBmp(s: string, n: nat)
    requires forall i :: 0 <= i < |s| ==> InBmp(s[i])
    requires n <= |s|
    ensures FitPrefix(s, n) == n
  {
    var k := FitPrefix(s, n);
    if k < n {
      Utf16LengthIsLength(s[..k + 1]);
    }
  }

  // ---------------------------------------------------------------- substrings

  predicate StartsWith(s: string, prefix: string)
  {
    |prefix| <= |s| && s[..|prefix|] == prefix
  }

  predicate OccursAt(s: string, pat: string, i: nat)
  {
    i + |pat| <= |s| && s[i..i + |pat|] == pat
  }

  /** `s.includes(pat)`, computed by sliding the pattern along `s`. */
  predicate Contains(s: string, pat: string)
    decreases |s|
  {
    StartsWith(s, pat) || (|s| > 0 && Contains(s[1..], pat))
  }

  /** `includes` holds exactly when the pattern occurs at some position. */
  lemma {:induction false} ContainsIff(s: string, pat: string)
    ensures Contains(s, pat) <==> exists i: nat :: OccursAt(s, pat, i)
    decreases |s|
  {
    if StartsWith(s, pat) {
      assert OccursAt(s, pat, 0);
    } else if |s| == 0 {
      assert |pat| > 0;
    } else {
      ContainsIff(s[1..], pat);
      if Contains(s[1..], pat) {
        var i: nat :| OccursAt(s[1..], pat, i);
        assert s[i + 1..i + 1 + |pat|] == s[1..][i..i + |pat|];
        assert OccursAt(s, pat, i + 1);
      } else {
        forall i: nat | 0 < i && OccursAt(s, pat, i) ensures false {
          assert s[1..][i - 1..i - 1 + |pat|] == s[i..i + |pat|];
          assert OccursAt(s[1..], pat, i - 1);
        }
      }
    }
  }

  /** A pattern whose first character is nowhere in `s` does not occur in it. */
  lemma MissingFirstCharNotContained(s: string, pat: string)
    requires |pat| > 0 && pat[0] !in s
    ensures !Contains(s, pat)
  {
    ContainsIff(s, pat);
    forall i: nat | OccursAt(s, pat, i) ensures false {
    }
  }

  /** Every string includes the empty string. */
  lemma ContainsEmpty(s: string)
    ensures Contains(s, "")
  {
    assert StartsWith(s, "");
  }

  /** Every string includes itself. */
  lemma ContainsSelf(s: string)
    ensures Contains(s, s)
  {
    assert StartsWith(s, s);
  }

  // ---------------------------------------------------------------- Java trim

  /** The characters Java's `String.trim()` strips: every code unit up to U+0020. */
  predicate IsJavaSpace(c: char) { c <= ' ' }

  function TrimStart(s: string): (r: string)
    ensures |r| <= |s|
    ensures |r| > 0 ==> !IsJavaSpace(r[0])
  {
    if |s| > 0 && IsJavaSpace(s[0]) then TrimStart(s[1..]) else s
  }

  function TrimEnd(s: string): (r: string)
    ensures |r| <= |s|
  {
    if |s| > 0 && IsJavaSpace(s[|s| - 1]) then TrimEnd(s[..|s| - 1]) else s
  }

  /** `String.trim()`. */
  function Trim(s: string): string
  {
    TrimEnd(TrimStart(s))
  }

  /** `s.trim().isEmpty()`, which is also how Hibernate's `@NotBlank` rejects a value. */
  predicate IsBlank(s: string)
  {
    |Trim(s)| == 0
  }

  lemma {:induction false} TrimStartEmptyIff(s: string)
    ensures |TrimStart(s)| == 0 <==> forall i :: 0 <= i < |s| ==> IsJavaSpace(s[i])
  {
    if |s| > 0 && IsJavaSpace(s[0]) {
      TrimStartEmptyIff(s[1..]);
      assert forall i :: 1 <= i < |s| ==> s[i] == s[1..][i - 1];
    }
  }

  lemma {:induction false} TrimEndKeepsLead(s: string)
    requires |s| > 0 && !IsJavaSpace(s[0])
    ensures |TrimEnd(s)| > 0
    decreases |s|
  {
    if IsJavaSpace(s[|s| - 1]) {
      assert |s| > 1;
      assert s[..|s| - 1][0] == s[0];
      TrimEndKeepsLead(s[..|s| - 1]);
    }
  }

  /** A string is blank exactly when every code unit is at most U+0020. */
  lemma BlankIff(s: string)
    ensures IsBlank(s) <==> forall i :: 0 <= i < |s| ==> IsJavaSpace(s[i])
  {
    TrimStartEmptyIff(s);
    if |TrimStart(s)| > 0 {
      TrimEndKeepsLead(TrimStart(s));
    }
  }

  /** A string holding a visible character is not blank. */
  lemma NotBlankWhenVisible(s: string, i: nat)
    requires i < |s| && !IsJavaSpace(s[i])
    ensures !IsBlank(s)
  {
    BlankIff(s);
  }

  // ---------------------------------------------------------------- decimal digits

  predicate IsDigit(c: char) { '0' <= c <= '9' }

  /** The regular expression `^\d+$`: one or more ASCII digits and nothing else. */
  predicate AllDigits(s: string)
  {
    |s| > 0 && forall i :: 0 <= i < |s| ==> IsDigit(s[i])
  }

  function DigitChar(d: nat): (c: char)
    requires d < 10
    ensures IsDigit(c)
  {
    ('0' as int + d) as char
  }

  function DigitValue(c: char): (d: nat)
    requires IsDigit(c)
    ensures d < 10
  {
    c as int - '0' as int
  }

  /** Decimal rendering of a natural number, no leading zeros. */
  function NatToString(n: nat): (r: string)
    ensures AllDigits(r)
    ensures |r| == 1 || r[0] != '0'
  {
    if n < 10 then [DigitChar(n)] else NatToString(n / 10) + [DigitChar(n % 10)]
  }

  /** Decimal rendering of an integer, as Java's `Long.toString` and JavaScript's
      `Number.prototype.toString` both write it. */
  function IntToString(i: int): (r: string)
    ensures |r| > 0
  {
    if i < 0 then "-" + NatToString(-i) else NatToString(i)
  }

  /** The value of a run of decimal digits (`parseInt` on a digit string). */
  function ParseDigits(s: string): nat
    requires forall i :: 0 <= i < |s| ==> IsDigit(s[i])
  {
    if |s| == 0 then 0 else ParseDigits(s[..|s| - 1]) * 10 + DigitValue(s[|s| - 1])
  }

  /** Parsing undoes rendering. */
  lemma {:induction false} ParseNatToString(n: nat)
    ensures ParseDigits(NatToString(n)) == n
  {
    if n >= 10 {
      ParseNatToString(n / 10);
      var s := NatToString(n);
      assert s[..|s| - 1] == NatToString(n / 10);
    }
  }

  /** Rendering is injective: distinct numbers have distinct decimal strings. */
  lemma NatToStringInjective(m: nat, n: nat)
    requires NatToString(m) == NatToString(n)
    ensures m == n
  {
    ParseNatToString(m);
    ParseNatToString(n);
  }

  /** Rendering integers is injective, the sign included. */
  lemma IntToStringInjective(a: int, b: int)
    requires IntToString(a) == IntToString(b)
    ensures a == b
  {
    if a < 0 && b < 0 {
      assert NatToString(-a) == IntToString(a)[1..];
      assert NatToString(-b) == IntToString(b)[1..];
      NatToStringInjective(-a, -b);
    } else if a >= 0 && b >= 0 {
      NatToStringInjective(a, b);
    }
  }

  // ---------------------------------------------------------------- join

  /** `Array.prototype.join(sep)`. */
  function Join(parts: seq<string>, sep: string): string
  {
    if |parts| == 0 then ""
    else if |parts| == 1 then parts[0]
    else parts[0] + sep + Join(parts[1..], sep)
  }

  /** Joining non-empty parts yields a non-empty string exactly when there is a part. */
  lemma {:induction false} JoinEmptyIff(parts: seq<string>, sep: string)
    requires forall i :: 0 <= i < |parts| ==> |parts[i]| > 0
    ensures Join(parts, sep) == "" <==> |parts| == 0
  {
    if |parts| > 1 {
      JoinEmptyIff(parts[1..], sep);
    }
  }

  /** Joining starts with the first part. */
  lemma JoinStartsWithFirst(parts: seq<string>, sep: string)
    requires |parts| > 0
    ensures StartsWith(Join(parts, sep), parts[0])
  {
    var j := Join(parts, sep);
    if |parts| > 1 {
      assert j == parts[0] + (sep + Join(parts[1..], sep));
      assert j[..|parts[0]|] == parts[0];
    } else {
      assert j[..|parts[0]|] == parts[0];
    }
  }
}
