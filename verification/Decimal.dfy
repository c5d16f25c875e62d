/** Reading and printing of a member limit: std::stringstream >> int and << int. */
module Decimal {
  import opened Strings

  datatype Option<T> = None | Some(value: T)

  const INT_MAX := 0x7fff_ffff
  const INT_MIN := -0x8000_0000

  predicate IsDigit(c: char) { '0' <= c <= '9' }

  function DigitValue(c: char): nat
    requires IsDigit(c)
  {
    c as int - '0' as int
  }

  function DigitChar(d: nat): char
    requires d < 10
  {
    ('0' as int + d) as char
  }

  predicate IsSpace(c: char) {
    c == ' ' || 9 <= c as int <= 13
  }

  function SkipSpaces(s: string): string
  {
    if s != "" && IsSpace(s[0]) then SkipSpaces(s[1..]) else s
  }

  /** The digits the text starts with. */
  function LeadingDigits(s: string): string
  {
    if s != "" && IsDigit(s[0]) then [s[0]] + LeadingDigits(s[1..]) else ""
  }

  function ValueOf(digits: string, acc: nat): nat
  {
    if digits == "" || !IsDigit(digits[0]) then acc else ValueOf(digits[1..], 10 * acc + DigitValue(digits[0]))
  }

  /** Extraction of an int: spaces, an optional sign, digits; what follows is left unread. It fails
      without a digit and outside the range of int. */
  function ReadInt(text: string): Option<int>
  {
    var s := SkipSpaces(text);
    var negative := s != "" && s[0] == '-';
    var digits := LeadingDigits(if s != "" && (s[0] == '-' || s[0] == '+') then s[1..] else s);
    if digits == "" then None
    else
      var v: int := ValueOf(digits, 0);
      var n := if negative then -v else v;
      if INT_MIN <= n <= INT_MAX then Some(n) else None
  }

  function PrintInt(n: nat): string
  {
    if n < 10 then [DigitChar(n)] else PrintInt(n / 10) + [DigitChar(n % 10)]
  }

  lemma {:induction false} PrintIsDigits(n: nat)
    ensures PrintInt(n) != "" && forall c :: c in PrintInt(n) ==> IsDigit(c)
  {
    if n >= 10 {
      PrintIsDigits(n / 10);
    }
  }

  lemma {:induction false} ValueOfLast(s: string, c: char, acc: nat)
    requires IsDigit(c) && forall x :: x in s ==> IsDigit(x)
    ensures ValueOf(s + [c], acc) == 10 * ValueOf(s, acc) + DigitValue(c)
  {
    if s == "" {
      assert s + [c] == [c];
    } else {
      assert (s + [c])[1..] == s[1..] + [c];
      assert s[0] in s;
      ValueOfLast(s[1..], c, 10 * acc + DigitValue(s[0]));
    }
  }

  lemma {:induction false} ValueOfPrint(n: nat)
    ensures ValueOf(PrintInt(n), 0) == n
  {
    if n >= 10 {
      PrintIsDigits(n / 10);
      ValueOfPrint(n / 10);
      ValueOfLast(PrintInt(n / 10), DigitChar(n % 10), 0);
    }
  }

  lemma {:induction false} AllDigits(s: string)
    requires forall c :: c in s ==> IsDigit(c)
    ensures LeadingDigits(s) == s
  {
    if s != "" {
      assert s[0] in s;
      AllDigits(s[1..]);
    }
  }

  /** Every limit that can be stored is read back from its printed form. */
  lemma {:induction false} ReadOfPrint(n: nat)
    requires n <= INT_MAX
    ensures ReadInt(PrintInt(n)) == Some(n)
  {
    PrintIsDigits(n);
    assert PrintInt(n)[0] in PrintInt(n);
    AllDigits(PrintInt(n));
    ValueOfPrint(n);
  }

  lemma {:induction false} SpacesSkipped(spaces: string, s: string)
    requires (forall c :: c in spaces ==> IsSpace(c)) && (s != "" ==> !IsSpace(s[0]))
    ensures SkipSpaces(spaces + s) == s
  {
    if spaces == "" {
      assert spaces + s == s;
    } else {
      assert (spaces + s)[1..] == spaces[1..] + s && spaces[0] in spaces;
      SpacesSkipped(spaces[1..], s);
    }
  }

  lemma {:induction false} DigitsBefore(digits: string, rest: string)
    requires (forall c :: c in digits ==> IsDigit(c)) && (rest != "" ==> !IsDigit(rest[0]))
    ensures LeadingDigits(digits + rest) == digits
  {
    if digits == "" {
      assert digits + rest == rest;
    } else {
      assert (digits + rest)[1..] == digits[1..] + rest && digits[0] in digits;
      DigitsBefore(digits[1..], rest);
      assert digits == [digits[0]] + digits[1..];
    }
  }

  /** A number is read behind spaces and a sign, up to the first character that is no digit, and within the
      range of int only. */
  lemma {:induction false} ReadNumber(spaces: string, sign: string, n: nat, rest: string)
    requires (forall c :: c in spaces ==> IsSpace(c)) && sign in {"", "+", "-"}
    requires rest != "" ==> !IsDigit(rest[0])
    ensures var v: int := if sign == "-" then 0 - n else n;
            ReadInt(spaces + (sign + (PrintInt(n) + rest)))
            == if -0x8000_0000 <= v <= 0x7fff_ffff then Some(v) else None
  {
    var digits := PrintInt(n);
    var number := digits + rest;
    PrintIsDigits(n);
    assert digits[0] in digits && number[0] == digits[0];
    SpacesSkipped(spaces, sign + number);
    DigitsBefore(digits, rest);
    ValueOfPrint(n);
    if sign == "" {
      EmptyPrefix(number);
    } else {
      assert (sign + number)[0] == sign[0] && (sign + number)[1..] == number;
    }
  }

  /** Without a digit behind spaces and a sign nothing is read. */
  lemma {:induction false} ReadNothing(spaces: string, sign: string, rest: string)
    requires (forall c :: c in spaces ==> IsSpace(c)) && sign in {"", "+", "-"}
    requires rest != "" ==> !IsDigit(rest[0]) && !IsSpace(rest[0]) && rest[0] != '+' && rest[0] != '-'
    ensures ReadInt(spaces + (sign + rest)) == None
  {
    SpacesSkipped(spaces, sign + rest);
    if sign == "" {
      EmptyPrefix(rest);
    } else {
      assert (sign + rest)[0] == sign[0] && (sign + rest)[1..] == rest;
    }
  }
}
