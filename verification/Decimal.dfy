/** Decimal printing and parsing: strconv.Itoa (also %d in a format) and strconv.Atoi. */
module Decimal {
  import opened Text

  const MAX_INT: int := 0x7fff_ffff_ffff_ffff
  const MIN_INT: int := -0x8000_0000_0000_0000

  predicate IsDigit(c: char) { '0' <= c <= '9' }

  function Digit(d: int): char
    requires 0 <= d < 10
  {
    ('0' as int + d) as char
  }

  function Digits(n: nat): (text: string)
    ensures text != "" && forall c :: c in text ==> IsDigit(c)
  {
    if n < 10 then [Digit(n)] else Digits(n / 10) + [Digit(n % 10)]
  }

  function Itoa(n: int): string {
    if n < 0 then "-" + Digits(-n) else Digits(n)
  }

  function Number(text: string): nat
    requires forall c :: c in text ==> IsDigit(c)
  {
    if text == "" then 0
    else
      var last := text[|text| - 1];
      assert last in text && IsDigit(last);
      Number(text[..|text| - 1]) * 10 + (last as int - '0' as int)
  }

  /** strconv.Atoi: an optional sign, at least one digit, and the 64-bit range. */
  function Atoi(text: string): Option<int> {
    var negative := text != "" && text[0] == '-';
    var digits := if text != "" && (text[0] == '-' || text[0] == '+') then text[1..] else text;
    if digits == "" || !(forall c :: c in digits ==> IsDigit(c)) then None
    else
      var n: int := if negative then 0 - Number(digits) else Number(digits);
      if MIN_INT <= n <= MAX_INT then Some(n) else None
  }

  lemma {:induction false} NumberOfDigits(n: nat)
    ensures Number(Digits(n)) == n
  {
    var text := Digits(n);
    if n >= 10 {
      NumberOfDigits(n / 10);
      assert text[..|text| - 1] == Digits(n / 10);
    } else {
      assert text[..0] == "";
    }
  }

  /** Parsing undoes printing on every 64-bit integer. */
  lemma AtoiItoa(n: int)
    requires MIN_INT <= n <= MAX_INT
    ensures Atoi(Itoa(n)) == Some(n)
  {
    NumberOfDigits(if n < 0 then -n else n);
    var text := Itoa(n);
    if n < 0 {
      assert text[1..] == Digits(-n);
    } else {
      assert text[0] in text;
    }
  }

  lemma ItoaInjective(a: int, b: int)
    requires Itoa(a) == Itoa(b)
    ensures a == b
  {
    var text := Itoa(a);
    if a < 0 {
      assert text[0] == '-' && text[1..] == Digits(-a);
      assert b >= 0 ==> Digits(b)[0] in Digits(b);
      assert text[1..] == Digits(-b);
    } else {
      assert Digits(a)[0] in Digits(a);
    }
    NumberOfDigits(if a < 0 then -a else a);
    NumberOfDigits(if b < 0 then -b else b);
  }

  lemma ItoaLetters(n: int)
    ensures Itoa(n) != "" && forall c :: c in Itoa(n) ==> IsDigit(c) || c == '-'
  {
  }

  /** Positional notation: one digit for numbers below ten, and the last digit behind the rest. */
  lemma ItoaDigits(n: nat, d: nat)
    requires d < 10
    ensures Itoa(d) == ["0123456789"[d]] && (n > 0 ==> Itoa(10 * n + d) == Itoa(n) + ["0123456789"[d]])
    ensures n > 0 ==> Itoa(0 - n) == "-" + Itoa(n)
  {
  }

  function Zeros(count: nat): string {
    seq(count, _ => '0')
  }

  lemma {:induction false} NumberPadded(zeros: nat, n: nat)
    ensures (forall c :: c in Zeros(zeros) + Digits(n) ==> IsDigit(c)) && Number(Zeros(zeros) + Digits(n)) == n
  {
    var text := Zeros(zeros) + Digits(n);
    if n >= 10 {
      NumberPadded(zeros, n / 10);
      assert text[..|text| - 1] == Zeros(zeros) + Digits(n / 10);
    } else {
      ZerosNumber(zeros);
      assert text[..|text| - 1] == Zeros(zeros);
    }
  }

  lemma {:induction false} ZerosNumber(zeros: nat)
    ensures Number(Zeros(zeros)) == 0
  {
    if zeros > 0 {
      ZerosNumber(zeros - 1);
      assert Zeros(zeros)[..zeros - 1] == Zeros(zeros - 1);
    }
  }

  /** Decimal text is some zeros and then the printed number. */
  lemma {:induction false} PaddingOf(text: string) returns (zeros: nat)
    requires text != "" && forall c :: c in text ==> IsDigit(c)
    ensures text == Zeros(zeros) + Digits(Number(text))
  {
    var front := text[..|text| - 1];
    assert text == front + [text[|text| - 1]];
    assert text[|text| - 1] in text;
    if front == "" {
      zeros := 0;
    } else {
      zeros := PaddingOf(front);
      if Number(front) == 0 {
        zeros := zeros + 1;
      }
    }
  }

  /** Any number of zeros and then the number as it is printed. */
  ghost predicate Padded(text: string, n: nat) {
    exists zeros: nat :: text == Zeros(zeros) + Digits(n)
  }

  lemma PaddedExactly(text: string, n: nat)
    ensures Padded(text, n) <==> text != "" && (forall c :: c in text ==> IsDigit(c)) && Number(text) == n
  {
    if text != "" && forall c :: c in text ==> IsDigit(c) {
      var zeros := PaddingOf(text);
    }
    if zeros: nat :| text == Zeros(zeros) + Digits(n) {
      NumberPadded(zeros, n);
    }
  }

  /** An optional sign, and the absolute value after any number of zeros. */
  ghost predicate Spelled(text: string, n: int) {
    || (n >= 0 && Padded(text, n))
    || (n >= 0 && text != "" && text[0] == '+' && Padded(text[1..], n))
    || (n <= 0 && text != "" && text[0] == '-' && Padded(text[1..], 0 - n))
  }

  /** Parsing accepts a number of 64 bits exactly in its spellings. */
  lemma AtoiExactly(text: string, n: int)
    ensures Atoi(text) == Some(n) <==> MIN_INT <= n <= MAX_INT && Spelled(text, n)
  {
    if text != "" {
      var m: nat := if n < 0 then 0 - n else n;
      assert text[0] in text;
      PaddedExactly(text, m);
      PaddedExactly(text[1..], m);
    } else if n >= 0 {
      PaddedExactly(text, n);
    }
  }
}
