/** Strings: splitting at a separator, and numbers in decimal. */
module Text {
  import opened Wrappers

  lemma PrefixMembers(s: string, n: nat)
    requires n <= |s|
    ensures forall i :: 0 <= i < n ==> s[i] in s[..n]
  {
    forall i | 0 <= i < n ensures s[i] in s[..n] {
      assert s[..n][i] == s[i];
    }
  }

  lemma SplitAtFirst(separator: char, a: string, rest: string, a': string, rest': string)
    requires separator !in a && separator !in a'
    requires a + [separator] + rest == a' + [separator] + rest'
    ensures a == a' && rest == rest'
  {
    var whole := a + [separator] + rest;
    assert a == whole[..|a|] && a' == whole[..|a'|];
    PrefixMembers(whole, |a|);
    PrefixMembers(whole, |a'|);
    assert whole[|a|] == separator && whole[|a'|] == separator;
    assert rest == whole[|a| + 1..] && rest' == whole[|a'| + 1..];
  }

  // ---------- String.prototype.split ----------

  function IndexOf(s: string, c: char): (i: nat)
    requires c in s
    ensures i < |s| && s[i] == c && c !in s[..i]
  {
    if s[0] == c then 0
    else
      assert s == [s[0]] + s[1..];
      var i := IndexOf(s[1..], c);
      assert s[..i + 1] == [s[0]] + s[1..][..i];
      i + 1
  }

  /** `s.split(separator)` */
  function Split(s: string, separator: char): seq<string>
    decreases |s|
  {
    if separator !in s then [s]
    else
      var i := IndexOf(s, separator);
      [s[..i]] + Split(s[i + 1..], separator)
  }

  lemma SplitStep(s: string, rest: string, separator: char)
    requires separator !in s
    ensures Split(s + [separator] + rest, separator) == [s] + Split(rest, separator)
  {
    var whole := s + [separator] + rest;
    assert whole[|s|] == separator;
    var i := IndexOf(whole, separator);
    assert whole == whole[..i] + [separator] + whole[i + 1..];
    SplitAtFirst(separator, s, rest, whole[..i], whole[i + 1..]);
  }

  // ---------- Numbers in decimal ----------

  const DIGITS: string := "0123456789"

  function Digit(n: nat): (c: char)
    requires n < 10
    ensures IsDigit(c) && DigitValue(c) == n
  {
    DIGITS[n]
  }

  predicate IsDigit(c: char) {
    '0' <= c <= '9'
  }

  function DigitValue(c: char): nat
    requires IsDigit(c)
  {
    c as int - '0' as int
  }

  predicate AllDigits(s: string) {
    forall i :: 0 <= i < |s| ==> IsDigit(s[i])
  }

  /** `String(n)` for a whole number that is not negative. */
  function NatText(n: nat): (s: string)
    ensures AllDigits(s) && s != ""
  {
    if n < 10 then [Digit(n)] else NatText(n / 10) + [Digit(n % 10)]
  }

  function IntText(n: int): string {
    if n < 0 then "-" + NatText(-n) else NatText(n)
  }

  /** `s.padStart(2, '0')` */
  function PadStart2(s: string): string {
    if s == "" then "00" else if |s| == 1 then "0" + s else s
  }

  function DigitsValue(s: string): nat
    requires AllDigits(s)
  {
    if s == "" then 0 else DigitsValue(s[..|s| - 1]) * 10 + DigitValue(s[|s| - 1])
  }

  /** `Number(s)` of digits or nothing; None stands for NaN. */
  function NumberOf(s: string): Option<int> {
    if AllDigits(s) then Some(DigitsValue(s)) else None
  }

  lemma {:induction false} NatTextValue(n: nat)
    ensures DigitsValue(NatText(n)) == n
  {
    if n >= 10 {
      NatTextValue(n / 10);
      assert NatText(n)[..|NatText(n)| - 1] == NatText(n / 10);
    }
  }

  /** Padding keeps the value, and gives two characters for numbers below 100. */
  lemma PaddedValue(n: nat)
    ensures AllDigits(PadStart2(NatText(n))) && DigitsValue(PadStart2(NatText(n))) == n
    ensures n < 100 ==> |PadStart2(NatText(n))| == 2
  {
    NatTextValue(n);
    var s := NatText(n);
    if |s| == 1 {
      assert ("0" + s)[..1] == "0" && "0"[..0] == "";
      assert DigitsValue("0") == 0;
      assert s[..0] == "";
    }
    if 10 <= n < 100 {
      assert |NatText(n / 10)| == 1;
    }
  }
}
