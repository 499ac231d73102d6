/** The C library's decimal notation: %d with zero padding, and atoi. */
module Decimal {

  function Digit(n: int): char
    requires 0 <= n < 10
  {
    ('0' as int + n) as char
  }

  predicate IsDigit(c: char) {
    '0' <= c <= '9'
  }

  function Value(c: char): int {
    c as int - '0' as int
  }

  function Digits(n: nat): string {
    if n < 10 then [Digit(n)] else Digits(n / 10) + [Digit(n % 10)]
  }

  function Filled(width: nat, s: string): string
    decreases width - |s|
  {
    if |s| >= width then s else Filled(width, ['0'] + s)
  }

  /** printf("%0<width>d", n); width 0 stands for no padding. */
  function Padded(width: nat, n: int): string {
    if n >= 0 then Filled(width, Digits(n))
    else "-" + Filled(if width > 0 then width - 1 else 0, Digits(-n))
  }

  predicate IsSpace(c: char) {
    c == ' ' || '\t' <= c <= '\r'
  }

  function ReadDigits(acc: int, s: string): int
    decreases |s|
  {
    if s == [] || !IsDigit(s[0]) then acc else ReadDigits(10 * acc + Value(s[0]), s[1..])
  }

  function Atoi(s: string): int
    decreases |s|
  {
    if s == [] then 0
    else if IsSpace(s[0]) then Atoi(s[1..])
    else if s[0] == '-' then -ReadDigits(0, s[1..])
    else if s[0] == '+' then ReadDigits(0, s[1..])
    else ReadDigits(0, s)
  }

  lemma {:induction false} ReadDigitsOf(n: nat)
    ensures |Digits(n)| > 0 && forall i :: 0 <= i < |Digits(n)| ==> IsDigit(Digits(n)[i])
    ensures ReadDigits(0, Digits(n)) == n
    decreases n
  {
    if n < 10 {
      assert ReadDigits(0, Digits(n)) == ReadDigits(n, []);
    } else {
      ReadDigitsOf(n / 10);
      ReadOneMore(0, Digits(n / 10), Digit(n % 10));
    }
  }

  lemma {:induction false} ReadOneMore(acc: int, s: string, c: char)
    requires IsDigit(c) && forall i :: 0 <= i < |s| ==> IsDigit(s[i])
    ensures ReadDigits(acc, s + [c]) == 10 * ReadDigits(acc, s) + Value(c)
    decreases |s|
  {
    if s == [] {
      assert ReadDigits(acc, [c]) == ReadDigits(10 * acc + Value(c), []);
      assert s + [c] == [c];
    } else {
      assert (s + [c])[1..] == s[1..] + [c];
      ReadOneMore(10 * acc + Value(s[0]), s[1..], c);
    }
  }

  predicate AllDigits(s: string) {
    forall i :: 0 <= i < |s| ==> IsDigit(s[i])
  }

  lemma {:induction false} FillingReadsSame(width: nat, s: string)
    requires |s| > 0 && AllDigits(s)
    ensures ReadDigits(0, Filled(width, s)) == ReadDigits(0, s)
    ensures |Filled(width, s)| > 0 && AllDigits(Filled(width, s))
    ensures |s| <= width ==> |Filled(width, s)| == width
    decreases width - |s|
  {
    if |s| < width {
      assert (['0'] + s)[1..] == s;
      FillingReadsSame(width, ['0'] + s);
    }
  }

  /** Reading back what was printed. */
  lemma AtoiInvertsPadded(width: nat, n: nat)
    ensures Atoi(Padded(width, n)) == n
  {
    ReadDigitsOf(n);
    FillingReadsSame(width, Digits(n));
  }

  lemma {:induction false} ReadingStops(acc: int, s: string, rest: string)
    requires AllDigits(s) && (rest == [] || !IsDigit(rest[0]))
    ensures ReadDigits(acc, s + rest) == ReadDigits(acc, s)
    decreases |s|
  {
    if s == [] {
      assert s + rest == rest;
    } else {
      assert (s + rest)[1..] == s[1..] + rest;
      ReadingStops(10 * acc + Value(s[0]), s[1..], rest);
    }
  }

  /** atoi skips white space, takes a sign, and stops at the first character that is no digit. */
  lemma {:induction false} AtoiReads(spaces: string, width: nat, n: int, rest: string)
    requires (forall i :: 0 <= i < |spaces| ==> IsSpace(spaces[i])) && (rest == [] || !IsDigit(rest[0]))
    ensures Atoi(spaces + Padded(width, n) + rest) == n
    ensures n >= 0 ==> Atoi(spaces + "+" + Padded(width, n) + rest) == n
    decreases |spaces|
  {
    hide Padded, Atoi, IsSpace;
    var text, plus := Padded(width, n) + rest, "+" + Padded(width, n) + rest;
    assert spaces + Padded(width, n) + rest == spaces + text;
    assert spaces + "+" + Padded(width, n) + rest == spaces + plus;
    if spaces == [] {
      AtoiNumber(width, n, rest);
      assert spaces + text == text && spaces + plus == plus;
    } else {
      var more := spaces[1..];
      AtoiReads(more, width, n, rest);
      assert more + Padded(width, n) + rest == more + text;
      assert more + "+" + Padded(width, n) + rest == more + plus;
      AtoiSkips(spaces, text);
      AtoiSkips(spaces, plus);
    }
  }

  lemma AtoiSkips(spaces: string, text: string)
    requires spaces != [] && IsSpace(spaces[0])
    ensures Atoi(spaces + text) == Atoi(spaces[1..] + text)
  {
    assert (spaces + text)[1..] == spaces[1..] + text;
  }

  lemma AtoiNumber(width: nat, n: int, rest: string)
    requires rest == [] || !IsDigit(rest[0])
    ensures Atoi(Padded(width, n) + rest) == n
    ensures n >= 0 ==> Atoi("+" + Padded(width, n) + rest) == n
  {
    hide Filled, Digits, ReadDigits, Atoi, AllDigits;
    var m := if n >= 0 then n else -n;
    var w := if n >= 0 then width else if width > 0 then width - 1 else 0;
    ReadDigitsOf(m);
    DigitsAreDigits(m);
    FillingReadsSame(w, Digits(m));
    ReadingStops(0, Filled(w, Digits(m)), rest);
    AtoiSigned(Filled(w, Digits(m)), rest);
  }

  lemma DigitsAreDigits(n: nat)
    ensures AllDigits(Digits(n))
  {
    hide Digits, IsDigit;
    ReadDigitsOf(n);
  }

  lemma AtoiSigned(f: string, rest: string)
    requires |f| > 0 && AllDigits(f)
    ensures Atoi(f + rest) == ReadDigits(0, f + rest)
    ensures Atoi("-" + f + rest) == -ReadDigits(0, f + rest)
    ensures Atoi("+" + f + rest) == ReadDigits(0, f + rest)
  {
    hide ReadDigits;
    assert (f + rest)[0] == f[0];
    assert ("-" + f + rest)[1..] == f + rest && ("-" + f + rest)[0] == '-';
    assert ("+" + f + rest)[1..] == f + rest && ("+" + f + rest)[0] == '+';
  }

  lemma TwoDigits(n: nat)
    requires n < 100
    ensures |Padded(2, n)| == 2
  {
    if n >= 10 {
      assert |Digits(n)| == |Digits(n / 10)| + 1 == 2;
    }
    ReadDigitsOf(n);
    FillingReadsSame(2, Digits(n));
  }

  lemma FourDigits(n: nat)
    requires 1000 <= n <= 9999
    ensures |Padded(0, n)| == |Padded(4, n)| == 4
  {
    assert |Digits(n)| == |Digits(n / 10)| + 1;
    assert |Digits(n / 10)| == |Digits(n / 10 / 10)| + 1;
    assert |Digits(n / 10 / 10)| == |Digits(n / 10 / 10 / 10)| + 1;
  }
}
