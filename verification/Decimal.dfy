/** Decimal text of integers: what `%d` and `strconv.FormatInt` print and
    `strconv.ParseInt(s, 10, 64)` reads back. */
module Decimal {
  import opened Wrappers
  import opened Int64

  predicate IsDigit(c: char) {
    '0' <= c <= '9'
  }

  predicate AllDigits(s: string) {
    forall i :: 0 <= i < |s| ==> IsDigit(s[i])
  }

  /** The digits of a natural number, most significant first. */
  function Digits(n: nat): (s: string)
    ensures s != "" && AllDigits(s)
  {
    var last := ['0' + (n % 10) as char];
    if n < 10 then last else Digits(n / 10) + last
  }

  function Print(n: int): (s: string)
    ensures s != ""
    ensures forall i :: 0 <= i < |s| ==> IsDigit(s[i]) || s[i] == '-'
  {
    if n < 0 then "-" + Digits(-n) else Digits(n)
  }

  /** The number a row of digits denotes. */
  function Value(s: string): nat
    requires AllDigits(s)
  {
    if s == "" then 0 else 10 * Value(s[..|s| - 1]) + (s[|s| - 1] as int - '0' as int)
  }

  function ParseDigits(s: string): Option<int> {
    if s != "" && AllDigits(s) then Some(Value(s)) else None
  }

  /** `strconv.ParseInt` in base 10 with 64 bits: one optional sign, at least one
      digit, leading zeros allowed, and a range check. */
  function ParseInt64(s: string): Option<int> {
    var magnitude := if s != "" && (s[0] == '+' || s[0] == '-') then ParseDigits(s[1..]) else ParseDigits(s);
    match magnitude
    case None => None
    case Some(m) =>
      var n := if s[0] == '-' then -m else m;
      if MIN_INT64 <= n <= MAX_INT64 then Some(n) else None
  }

  lemma {:induction false} ValueOfDigits(n: nat)
    ensures Value(Digits(n)) == n
  {
    var s := Digits(n);
    if n < 10 {
      assert s[..|s| - 1] == "";
    } else {
      ValueOfDigits(n / 10);
      assert s[..|s| - 1] == Digits(n / 10);
    }
  }

  /** Reading back a printed 64-bit integer gives that integer. */
  lemma ParsePrint(n: int)
    requires MIN_INT64 <= n <= MAX_INT64
    ensures ParseInt64(Print(n)) == Some(n)
  {
    if n < 0 {
      ValueOfDigits(-n);
      assert Print(n)[1..] == Digits(-n);
    } else {
      ValueOfDigits(n);
    }
  }

  function Zeros(n: nat): string {
    seq(n, _ => '0')
  }

  /** A row of digits is some zeros followed by the digits of its value. */
  lemma {:induction false} DigitsOfValue(s: string) returns (zeros: nat)
    requires s != "" && AllDigits(s)
    ensures s == Zeros(zeros) + Digits(Value(s))
    decreases |s|
  {
    var front, last := s[..|s| - 1], s[|s| - 1];
    assert s == front + [last];
    if front == "" {
      zeros := 0;
    } else {
      zeros := DigitsOfValue(front);
      if Value(front) == 0 {
        zeros := zeros + 1;
        assert Digits(0) == "0";
        assert Zeros(zeros) == Zeros(zeros - 1) + "0";
      } else {
        assert Value(s) / 10 == Value(front) && Value(s) >= 10;
        assert Zeros(zeros) + Digits(Value(front)) + [last] == Zeros(zeros) + (Digits(Value(front)) + [last]);
      }
    }
  }

  lemma {:induction false} ValueOfZeros(zeros: nat, n: nat)
    ensures AllDigits(Zeros(zeros) + Digits(n)) && Value(Zeros(zeros) + Digits(n)) == n
    decreases n
  {
    var s := Zeros(zeros) + Digits(n);
    var front := s[..|s| - 1];
    if n < 10 {
      assert front == Zeros(zeros);
      ZerosCountNothing(zeros);
    } else {
      assert front == Zeros(zeros) + Digits(n / 10);
      ValueOfZeros(zeros, n / 10);
    }
  }

  lemma {:induction false} ZerosCountNothing(zeros: nat)
    ensures AllDigits(Zeros(zeros)) && Value(Zeros(zeros)) == 0
    decreases zeros
  {
    if zeros > 0 {
      assert Zeros(zeros)[..zeros - 1] == Zeros(zeros - 1);
      ZerosCountNothing(zeros - 1);
    }
  }

  /** The text is a number's digits after a sign, if any, and any zeros. */
  predicate Writes(s: string, sign: string, zeros: nat, n: int) {
    && sign in {"", "+", "-"} && (sign == "-" ==> n <= 0) && (sign != "-" ==> n >= 0)
    && s == sign + (Zeros(zeros) + Digits(if n < 0 then -n else n))
  }

  /** What is read as a number: its decimal digits, with or without leading zeros, after a minus
      sign for the negative ones and perhaps a plus sign for the others, if it fits 64 bits. */
  lemma ParsesIff(s: string, n: int)
    ensures ParseInt64(s) == Some(n) <==>
      MIN_INT64 <= n <= MAX_INT64 && exists sign: string, zeros: nat :: Writes(s, sign, zeros, n)
  {
    hide Digits, Value, Zeros;
    if ParseInt64(s) == Some(n) {
      var signed := s[0] == '+' || s[0] == '-';
      var sign, rest := if signed then s[..1] else "", if signed then s[1..] else s;
      var zeros := DigitsOfValue(rest);
      assert s == sign + rest;
      assert sign == "" || sign == "+" || sign == "-";
      assert sign == "-" <==> s[0] == '-';
      assert Value(rest) == if n < 0 then -n else n;
      assert Writes(s, sign, zeros, n);
    }
    if sign: string, zeros: nat :| Writes(s, sign, zeros, n) {
      var m := if n < 0 then -n else n;
      ValueOfZeros(zeros, m);
      var rest := Zeros(zeros) + Digits(m);
      assert sign != "" ==> s[1..] == rest && s[..1] == sign;
      assert sign == "" ==> s == rest && IsDigit(s[0]);
    }
  }

  /** Printing is injective on all integers. */
  lemma PrintInjective(a: int, b: int)
    requires Print(a) == Print(b)
    ensures a == b
  {
    assert (a < 0) == (Print(a)[0] == '-');
    assert (b < 0) == (Print(b)[0] == '-');
    if a < 0 {
      assert Digits(-a) == Print(a)[1..] == Print(b)[1..] == Digits(-b);
      ValueOfDigits(-a);
      ValueOfDigits(-b);
    } else {
      ValueOfDigits(a);
      ValueOfDigits(b);
    }
  }
}
