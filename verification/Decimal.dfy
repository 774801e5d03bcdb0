/** std::to_string and std::stoi on 32-bit ints. */
module Decimal {
  import opened Wrappers

  function Digit(d: nat): char
    requires d < 10
  {
    '0' + (d as char)
  }

  predicate IsDigit(c: char) { '0' <= c <= '9' }

  function Digits(n: nat): (s: string)
    ensures s != [] && forall i :: 0 <= i < |s| ==> IsDigit(s[i])
  {
    if n < 10 then [Digit(n)] else Digits(n / 10) + [Digit(n % 10)]
  }

  function ToString(n: int): string {
    if n < 0 then "-" + Digits(-n) else Digits(n)
  }

  function Value(c: char): nat
    requires IsDigit(c)
  {
    c as int - '0' as int
  }

  /** The number a run of digits stands for. */
  function Number(s: string): nat
    requires forall i :: 0 <= i < |s| ==> IsDigit(s[i])
  {
    if s == [] then 0 else 10 * Number(s[..|s| - 1]) + Value(s[|s| - 1])
  }

  lemma {:induction false} NumberOfDigits(n: nat)
    ensures Number(Digits(n)) == n
  {
    var s := Digits(n);
    if n < 10 {
      assert s[..0] == [];
    } else {
      NumberOfDigits(n / 10);
      assert s[..|s| - 1] == Digits(n / 10);
    }
  }

  /** Different numbers print differently. */
  lemma {:induction false} ToStringInjective(a: int, b: int)
    requires ToString(a) == ToString(b)
    ensures a == b
  {
    PrintedSign(a);
    PrintedSign(b);
    NumberOfDigits(if a < 0 then -a else a);
    NumberOfDigits(if b < 0 then -b else b);
  }

  lemma {:induction false} PrintedSign(n: int)
    ensures n < 0 <==> ToString(n)[0] == '-'
    ensures n < 0 ==> ToString(n)[1..] == Digits(-n)
  {
    if n >= 0 { assert IsDigit(Digits(n)[0]); }
  }

  predicate IsSpace(c: char) {
    c == ' ' || c == '\t' || c == '\n' || c == '\r' || c as int == 11 || c as int == 12
  }

  function SkipSpace(s: string): string {
    if s != [] && IsSpace(s[0]) then SkipSpace(s[1..]) else s
  }

  /** The digits s begins with. */
  function LeadingDigits(s: string): (d: string)
    ensures forall i :: 0 <= i < |d| ==> IsDigit(d[i])
  {
    if s == [] || !IsDigit(s[0]) then [] else [s[0]] + LeadingDigits(s[1..])
  }

  /** None stands for the exceptions: no digits, or a number that does not fit. */
  function ParseInt(s: string): Option<int> {
    var t := SkipSpace(s);
    var negative := t != [] && t[0] == '-';
    var d := LeadingDigits(if t != [] && (t[0] == '-' || t[0] == '+') then t[1..] else t);
    if d == [] then None
    else
      var n := if negative then 0 - Number(d) else Number(d);
      if -0x8000_0000 <= n < 0x8000_0000 then Some(n) else None
  }

  lemma {:induction false} AllDigits(s: string)
    requires forall i :: 0 <= i < |s| ==> IsDigit(s[i])
    ensures LeadingDigits(s) == s
  {
    if s != [] { AllDigits(s[1..]); }
  }

  /** Every 32-bit int survives printing and parsing, and no larger number is parsed. */
  lemma {:induction false} ParseToString(n: int)
    ensures ParseInt(ToString(n)) == if -0x8000_0000 <= n < 0x8000_0000 then Some(n) else None
  {
    var m := if n < 0 then -n else n;
    var d := Digits(m);
    NumberOfDigits(m);
    AllDigits(d);
    assert IsDigit(d[0]);
    assert SkipSpace(ToString(n)) == ToString(n);
    if n < 0 { assert ToString(n)[1..] == d; }
  }

  lemma {:induction false} SpaceSkipped(space: string, text: string)
    requires forall i :: 0 <= i < |space| ==> IsSpace(space[i])
    requires text == "" || !IsSpace(text[0])
    ensures SkipSpace(space + text) == text
  {
    if space == "" {
      assert space + text == text;
    } else {
      SpaceSkipped(space[1..], text);
      assert (space + text)[1..] == space[1..] + text;
    }
  }

  lemma {:induction false} TailLeft(digits: string, tail: string)
    requires forall i :: 0 <= i < |digits| ==> IsDigit(digits[i])
    requires tail == "" || !IsDigit(tail[0])
    ensures LeadingDigits(digits + tail) == digits
  {
    if digits == "" {
      assert digits + tail == tail;
    } else {
      TailLeft(digits[1..], tail);
      assert (digits + tail)[1..] == digits[1..] + tail;
    }
  }

  lemma {:induction false} SpaceIgnored(space: string, text: string)
    requires forall i :: 0 <= i < |space| ==> IsSpace(space[i])
    requires text != "" && !IsSpace(text[0])
    ensures ParseInt(space + text) == ParseInt(text)
  {
    SpaceSkipped(space, text);
    assert SkipSpace(text) == text;
  }

  lemma {:induction false} TailIgnored(n: nat, tail: string)
    requires tail == "" || !IsDigit(tail[0])
    ensures ParseInt(Digits(n) + tail) == ParseInt(ToString(n))
  {
    var d := Digits(n);
    assert IsDigit(d[0]) && (d + tail)[0] == d[0];
    TailLeft(d, tail);
    AllDigits(d);
    assert SkipSpace(d + tail) == d + tail && SkipSpace(d) == d;
  }

  lemma {:induction false} SignRead(negative: bool, n: nat, tail: string)
    requires tail == "" || !IsDigit(tail[0])
    ensures
      var sign := if negative then ['-'] else ['+'];
      ParseInt(sign + (Digits(n) + tail)) == ParseInt(ToString(if negative then 0 - n else n))
  {
    var text := (if negative then ['-'] else ['+']) + (Digits(n) + tail);
    assert text[1..] == Digits(n) + tail && SkipSpace(text) == text;
    TailLeft(Digits(n), tail);
    NumberOfDigits(n);
    ParseToString(if negative then 0 - n else n);
  }

  /** White space before a number, a plus sign, and whatever comes after the digits make no
      difference. */
  lemma {:induction false} ParseLenient(space: string, n: nat, tail: string)
    requires forall i :: 0 <= i < |space| ==> IsSpace(space[i])
    requires tail == "" || !IsDigit(tail[0])
    ensures ParseInt(space + (Digits(n) + tail)) == ParseInt(ToString(n))
    ensures ParseInt(space + (['+'] + (Digits(n) + tail))) == ParseInt(ToString(n))
    ensures ParseInt(space + (['-'] + (Digits(n) + tail))) == ParseInt(ToString(0 - n))
  {
    var text := Digits(n) + tail;
    assert IsDigit(Digits(n)[0]) && text[0] == Digits(n)[0];
    SpaceIgnored(space, text);
    SpaceIgnored(space, ['+'] + text);
    SpaceIgnored(space, ['-'] + text);
    TailIgnored(n, tail);
    SignRead(false, n, tail);
    SignRead(true, n, tail);
  }

  /** Without a digit or a sign in its place there is no number. */
  lemma {:induction false} NothingToParse(space: string, text: string)
    requires forall i :: 0 <= i < |space| ==> IsSpace(space[i])
    requires text == "" || (text[0] != '+' && text[0] != '-' && !IsSpace(text[0]) && !IsDigit(text[0]))
    ensures ParseInt(space + text) == None
  {
    SpaceSkipped(space, text);
  }
}
