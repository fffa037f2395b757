/** Shared vocabulary: an Option type, ASCII character classes, decimal
    digit strings, and the two Python string idioms the crawlers use to
    derive folder names (`name.split(c)[0]` and `os.path.splitext`). */
module Base {

  datatype Option<T> = None | Some(value: T)

  // ---------------------------------------------------------------------
  // ASCII characters

  predicate IsDigit(c: char) { '0' <= c <= '9' }

  predicate IsUpper(c: char) { 'A' <= c <= 'Z' }

  predicate AllDigits(s: string) { forall i :: 0 <= i < |s| ==> IsDigit(s[i]) }

  predicate NoDigits(s: string) { forall i :: 0 <= i < |s| ==> !IsDigit(s[i]) }

  predicate NoUpper(s: string) { forall i :: 0 <= i < |s| ==> !IsUpper(s[i]) }

  /** Python's `str.lower` on one ASCII character. */
  function Lower(c: char): (r: char)
    ensures !IsUpper(r)
    ensures IsDigit(r) <==> IsDigit(c)
    ensures !IsUpper(c) ==> r == c
  {
    if IsUpper(c) then (c as int + 32) as char else c
  }

  /** Python's `str.lower` on an ASCII string. */
  function LowerAll(s: string): (r: string)
    ensures |r| == |s|
    ensures forall i :: 0 <= i < |s| ==> r[i] == Lower(s[i])
  {
    if s == [] then [] else [Lower(s[0])] + LowerAll(s[1..])
  }

  lemma LowerAllKeepsLowercase(s: string)
    requires NoUpper(s)
    ensures LowerAll(s) == s
  {
  }

  // ---------------------------------------------------------------------
  // Decimal numerals: Python's `int(text)` and `f"{n}"`

  function DigitValue(c: char): (d: nat)
    requires IsDigit(c)
    ensures d < 10
  {
    c as int - '0' as int
  }

  function DigitChar(d: nat): (c: char)
    requires d < 10
    ensures IsDigit(c) && DigitValue(c) == d
  {
    ('0' as int + d) as char
  }

  /** `int(s)` for a string of ASCII digits (leading zeros allowed). */
  function DigitsValue(s: string): nat
    requires AllDigits(s)
  {
    if s == [] then 0 else DigitsValue(s[..|s| - 1]) * 10 + DigitValue(s[|s| - 1])
  }

  /** `str(n)` / `f"{n}"`: decimal without leading zeros. */
  function NatToString(n: nat): (r: string)
    ensures r != [] && AllDigits(r)
    ensures r[0] == '0' ==> n == 0
    decreases n
  {
    if n < 10 then [DigitChar(n)] else NatToString(n / 10) + [DigitChar(n % 10)]
  }

  /** `int(str(n)) == n`. */
  lemma {:induction false} NatToStringRoundTrip(n: nat)
    ensures DigitsValue(NatToString(n)) == n
    decreases n
  {
    if n >= 10 {
      var s := NatToString(n);
      assert s[..|s| - 1] == NatToString(n / 10);
      NatToStringRoundTrip(n / 10);
    }
  }

  lemma NatToStringInjective(a: nat, b: nat)
    ensures NatToString(a) == NatToString(b) ==> a == b
  {
    NatToStringRoundTrip(a);
    NatToStringRoundTrip(b);
  }

  /** A leading zero does not change the value `int` reads. */
  lemma {:induction false} LeadingZeroIgnored(d: string)
    requires AllDigits(d)
    ensures DigitsValue(['0'] + d) == DigitsValue(d)
    decreases |d|
  {
    if d != [] {
      var z := ['0'] + d;
      assert z[..|z| - 1] == ['0'] + d[..|d| - 1];
      assert z[|z| - 1] == d[|d| - 1];
      LeadingZeroIgnored(d[..|d| - 1]);
    }
  }

  // ---------------------------------------------------------------------
  // Folder-name idioms

  /** `s.split(sep)[0]`: the text before the first `sep`, or all of `s`. */
  function BeforeFirst(s: string, sep: char): (r: string)
    ensures r <= s
    ensures sep !in r
    ensures r == s || s[|r|] == sep
  {
    if s == [] then []
    else if s[0] == sep then []
    else [s[0]] + BeforeFirst(s[1..], sep)
  }

  /** Index of the last '.' in `s`, if any. */
  function LastDot(s: string): (r: Option<nat>)
    ensures r.None? ==> '.' !in s
    ensures r.Some? ==> r.value < |s| && s[r.value] == '.' && '.' !in s[r.value + 1..]
  {
    if s == [] then None
    else if s[|s| - 1] == '.' then Some(|s| - 1)
    else
      var r := LastDot(s[..|s| - 1]);
      assert s == s[..|s| - 1] + [s[|s| - 1]];
      r
  }

  predicate OnlyDots(s: string) { forall i :: 0 <= i < |s| ==> s[i] == '.' }

  /** `os.path.splitext(name)[0]` for a name without a path separator: the
      text before the last '.', unless only dots precede that '.' (a
      leading-dot name such as ".jpg" has no extension). */
  function SplitextStem(name: string): (stem: string)
    ensures stem <= name
    ensures name != [] ==> stem != []
    ensures stem != name ==> name[|stem|] == '.' && '.' !in name[|stem| + 1..]
    ensures stem == name <==>
      forall i, j :: 0 <= j < i < |name| && name[i] == '.' ==> name[j] == '.'
  {
    match LastDot(name)
    case None => name
    case Some(d) =>
      if OnlyDots(name[..d]) then name
      else
        assert exists j :: 0 <= j < d && name[j] != '.';
        name[..d]
  }
}
