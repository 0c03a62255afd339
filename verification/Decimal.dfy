/** Decimal notation, as Python's `str`, `int` and the tokenizer for `-?\d+`. */
module Decimal {

  predicate IsDigit(c: char) {
    '0' <= c <= '9'
  }

  predicate AllDigits(s: string) {
    forall i :: 0 <= i < |s| ==> IsDigit(s[i])
  }

  function Digits(n: nat): (s: string)
    ensures s != "" && AllDigits(s)
  {
    (if n < 10 then "" else Digits(n / 10)) + [('0' as int + n % 10) as char]
  }

  /** `str(v)` */
  function Str(v: int): string {
    if v < 0 then "-" + Digits(-v) else Digits(v)
  }

  function ParseDigits(s: string): nat
    requires AllDigits(s)
  {
    if s == "" then 0 else 10 * ParseDigits(s[..|s| - 1]) + (s[|s| - 1] as int - '0' as int)
  }

  lemma {:induction false} DigitsParse(n: nat)
    ensures ParseDigits(Digits(n)) == n
  {
    var s := Digits(n);
    if n < 10 {
      assert s[..|s| - 1] == "";
    } else {
      assert s[..|s| - 1] == Digits(n / 10);
      DigitsParse(n / 10);
    }
  }

  /** A match of `-?\d+`. */
  predicate IsToken(s: string) {
    s != "" && if s[0] == '-' then |s| > 1 && AllDigits(s[1..]) else AllDigits(s)
  }

  /** `int(token)` */
  function Int(s: string): int
    requires IsToken(s)
  {
    if s[0] == '-' then 0 - ParseDigits(s[1..]) as int else ParseDigits(s) as int
  }

  lemma NegativeReads(digits: string)
    requires digits != "" && AllDigits(digits)
    ensures IsToken("-" + digits) && Int("-" + digits) == 0 - ParseDigits(digits)
  {
    assert ("-" + digits)[1..] == digits;
  }

  lemma PositiveReads(digits: string)
    requires digits != "" && AllDigits(digits)
    ensures IsToken(digits) && Int(digits) == ParseDigits(digits)
  {
    assert IsDigit(digits[0]);
  }

  /** The text of a number is a token, and reads back as the number. */
  lemma StrReads(v: int)
    ensures IsToken(Str(v)) && Int(Str(v)) == v
  {
    if v < 0 {
      DigitsParse(-v);
      NegativeReads(Digits(-v));
    } else {
      DigitsParse(v);
      PositiveReads(Digits(v));
    }
  }

  lemma StrInjective(v: int, w: int)
    requires Str(v) == Str(w)
    ensures v == w
  {
    StrReads(v);
    StrReads(w);
  }

  /** The number of digits at the start of the text. */
  function Run(s: string): (n: nat)
    ensures n <= |s| && AllDigits(s[..n])
    ensures n < |s| ==> !IsDigit(s[n])
  {
    if s == "" || !IsDigit(s[0]) then 0 else 1 + Run(s[1..])
  }

  /** The length of the longest match of `-?\d+` at the start of the text; 0 if there is none. */
  function MatchLength(s: string): (n: nat)
    ensures n <= |s| && (n > 0 ==> IsToken(s[..n]))
  {
    if s != "" && s[0] == '-' then
      var n := Run(s[1..]);
      assert s[..1 + n][1..] == s[1..][..n];
      if n == 0 then 0 else 1 + n
    else Run(s)
  }

  /** The integers that the tokenizer finds in a text. */
  function Ints(s: string): seq<int>
    decreases |s|
  {
    if s == "" then []
    else
      var n := MatchLength(s);
      if n == 0 then Ints(s[1..]) else [Int(s[..n])] + Ints(s[n..])
  }

  lemma {:induction false} RunOf(s: string, rest: string)
    requires AllDigits(s) && (rest == "" || !IsDigit(rest[0]))
    ensures Run(s + rest) == |s|
  {
    if s == "" {
      assert s + rest == rest;
    } else {
      assert (s + rest)[1..] == s[1..] + rest;
      RunOf(s[1..], rest);
    }
  }

  lemma MatchOf(token: string, rest: string)
    requires IsToken(token) && (rest == "" || !IsDigit(rest[0]))
    ensures MatchLength(token + rest) == |token|
  {
    if token[0] == '-' {
      assert (token + rest)[1..] == token[1..] + rest;
      RunOf(token[1..], rest);
    } else {
      RunOf(token, rest);
    }
  }

  lemma ReadToken(token: string, rest: string)
    requires IsToken(token) && (rest == "" || !IsDigit(rest[0]))
    ensures Ints(token + rest) == [Int(token)] + Ints(rest)
  {
    MatchOf(token, rest);
    assert (token + rest)[..|token|] == token && (token + rest)[|token|..] == rest;
  }

  /** A number followed by something that is no digit is read as that number. */
  lemma ReadNumber(v: int, rest: string)
    requires rest == "" || !IsDigit(rest[0])
    ensures Ints(Str(v) + rest) == [v] + Ints(rest)
  {
    StrReads(v);
    ReadToken(Str(v), rest);
  }

  /** Characters that can start no number are skipped. */
  lemma {:induction false} SkipBlank(sep: string, rest: string)
    requires forall i :: 0 <= i < |sep| ==> !IsDigit(sep[i]) && sep[i] != '-'
    ensures Ints(sep + rest) == Ints(rest)
    decreases sep
  {
    if sep == "" {
      assert sep + rest == rest;
    } else {
      assert (sep + rest)[1..] == sep[1..] + rest;
      SkipBlank(sep[1..], rest);
    }
  }
}
