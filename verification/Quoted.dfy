/** The `%q` option of `string.format`: what it writes, and that reading it as a Lua string gives the text back. */
module Quoted {
  import opened Numerals
  import opened Patterns

  /** What `addquoted` writes for c when next follows it. */
  function Escaped(c: char, next: char): string {
    var n := c as int;
    if c == '"' || c == '\\' || c == '\n' then ['\\', c]
    else if IsControl(c) then
      if n >= 100 || IsDigit(next) then ['\\', Digit(n / 100), Digit(n / 10 % 10), Digit(n % 10)]
      else if n >= 10 then ['\\', Digit(n / 10), Digit(n % 10)]
      else ['\\', Digit(n)]
    else [c]
  }

  /** A number of up to three digits as text. */
  lemma CodeText(a: nat, b: nat, c: nat)
    requires a < 10 && b < 10 && c < 10
    ensures Decimal(100 * a + 10 * b + c) ==
      if a > 0 then [Digit(a), Digit(b), Digit(c)] else if b > 0 then [Digit(b), Digit(c)] else [Digit(c)]
  {
    hide Digit, Decimal, Zeros;
    var m := 10 * a + b;
    DecimalParts(m, c);
    assert 10 * m + c == 100 * a + 10 * b + c;
    DecimalParts(a, b);
    if a > 0 {
      DecimalParts(0, a);
      assert 10 * 0 + a == a;
    }
  }

  /** With zeros to three digits. */
  lemma CodeZeros(t: string, a: nat, b: nat, c: nat)
    requires a < 10 && b < 10 && c < 10
    requires t == if a > 0 then [Digit(a), Digit(b), Digit(c)] else if b > 0 then [Digit(b), Digit(c)] else [Digit(c)]
    ensures Zeros(3 - |t|) + t == [Digit(a), Digit(b), Digit(c)]
  {
    ZerosText();
    hide Digit, Decimal, Zeros;
  }

  lemma ZerosText()
    ensures Zeros(0) == "" && Zeros(1) == [Digit(0)] && Zeros(2) == [Digit(0), Digit(0)]
  {
    assert Zeros(2) == Zeros(1) + "0" && Zeros(1) == Zeros(0) + "0";
  }

  /** A control character is written as its decimal code, with zeros to three digits if a digit follows; quotes,
      backslashes and newlines behind a backslash; all else as it is. */
  lemma EscapedIs(c: char, next: char)
    ensures c in "\"\\\n" ==> Escaped(c, next) == "\\" + [c]
    ensures c != '\n' && (c as int < 32 || c as int == 127) ==>
      var code := Decimal(c as int);
      |code| <= 3 && Escaped(c, next) == "\\" + (if IsDigit(next) then Zeros(3 - |code|) + code else code)
    ensures c !in "\"\\" && c as int >= 32 && c as int != 127 ==> Escaped(c, next) == [c]
  {
    hide Decimal, Digit, Zeros;
    if IsControl(c) && c != '\n' {
      var n := c as int;
      CodeDigits(n);
      CodeText(n / 100, n / 10 % 10, n % 10);
      CodeZeros(Decimal(n), n / 100, n / 10 % 10, n % 10);
      ControlEscaped(c, next);
    }
  }

  lemma CodeDigits(n: nat)
    requires n < 1000
    ensures n == 100 * (n / 100) + 10 * (n / 10 % 10) + n % 10 && n / 100 < 10
    ensures (n >= 100 <==> n / 100 > 0) && (n < 100 ==> n / 10 % 10 == n / 10)
  {
  }

  lemma ControlEscaped(c: char, next: char)
    requires IsControl(c) && c != '\n'
    ensures var n := c as int;
      Escaped(c, next) == "\\" +
        if n >= 100 || IsDigit(next) then [Digit(n / 100), Digit(n / 10 % 10), Digit(n % 10)]
        else if n >= 10 then [Digit(n / 10), Digit(n % 10)]
        else [Digit(n)]
  {
    hide Digit;
  }

  /** The text from i on, escaped. */
  function Body(s: string, i: nat): string
    decreases |s| - i
  {
    if i >= |s| then "" else Escaped(s[i], At(s, i + 1)) + Body(s, i + 1)
  }

  function Quote(s: string): string {
    "\"" + Body(s, 0) + "\""
  }

  /** `(c * 205) >> 11` is c / 10 for two digits. */
  lemma Tens(c: nat)
    requires c < 100
    ensures c * 205 / 2048 == c / 10
  {
  }

  /** `addquoted` */
  method AddQuoted(s: string) returns (b: string)
    ensures b == Quote(s)
  {
    hide Escaped;
    b := "\"";
    var i := 0;
    while i < |s|
      invariant 0 <= i <= |s| && b + Body(s, i) == "\"" + Body(s, 0)
    {
      var e := AddChar(s[i], At(s, i + 1));
      Appended(b, e, Body(s, i + 1));
      b := b + e;
      i := i + 1;
    }
    assert b + "" == b;
    b := b + "\"";
  }

  /** The body of its loop. */
  method AddChar(c0: char, next: char) returns (b: string)
    ensures b == Escaped(c0, next)
  {
    var c := c0;
    b := "";
    if c == '"' || c == '\\' || c == '\n' {
      b := b + "\\";
    } else if IsControl(c) {
      var n := c as int;
      b := b + "\\";
      if n >= 100 || IsDigit(next) {
        b := b + [if n >= 100 then '1' else '0'];
        if n >= 100 {
          n := n - 100;
        }
        var d := n * 205 / 2048;
        Tens(n);
        n := n - d * 10;
        b := b + [Digit(d)];
      } else if n >= 10 {
        var d := n * 205 / 2048;
        Tens(n);
        n := n - d * 10;
        b := b + [Digit(d)];
      }
      c := Digit(n);
    }
    b := b + [c];
  }

  lemma Appended(a: string, b: string, c: string)
    ensures a + (b + c) == (a + b) + c
  {
  }

  // ----- reading -----

  datatype Read = Text(s: string) | Malformed

  function Cons(c: char, r: Read): Read {
    match r
    case Text(s) => Text([c] + s)
    case Malformed => Malformed
  }

  /** How many of the first three characters from i on are digits in a row. */
  function Digits(t: string, i: nat): (n: nat)
    ensures n <= 3 && forall k | i <= k < i + n :: IsDigit(At(t, k))
  {
    if !IsDigit(At(t, i)) then 0 else if !IsDigit(At(t, i + 1)) then 1 else if !IsDigit(At(t, i + 2)) then 2 else 3
  }

  function DigitAt(t: string, i: nat): nat
    requires IsDigit(At(t, i))
  {
    At(t, i) as int - '0' as int
  }

  function Number(t: string, i: nat, n: nat): nat
    requires forall k | i <= k < i + n :: IsDigit(At(t, k))
  {
    if n == 0 then 0
    else
      assert IsDigit(At(t, i + n - 1));
      10 * Number(t, i, n - 1) + DigitAt(t, i + n - 1)
  }

  /** The characters that stand for themselves behind a backslash or name a control character. */
  function Named(c: char): char {
    match c
    case 'a' => 7 as char
    case 'b' => 8 as char
    case 'f' => 12 as char
    case 'n' => '\n'
    case 'r' => '\r'
    case 't' => '\t'
    case 'v' => 11 as char
    case _ => c
  }

  /** The rest of a string literal, section 2.1 of the Lua 5.1 Reference Manual: up to the closing quote, which must be
      the last character. */
  function ReadFrom(t: string, i: nat): Read
    decreases |t| - i
  {
    if i >= |t| then Malformed
    else if t[i] == '"' then if i + 1 == |t| then Text("") else Malformed
    else if t[i] == '\n' || t[i] == '\r' then Malformed
    else if t[i] != '\\' then Cons(t[i], ReadFrom(t, i + 1))
    else if i + 1 >= |t| then Malformed
    else
      var c, n := t[i + 1], Digits(t, i + 1);
      if n > 0 then
        if Number(t, i + 1, n) > 255 then Malformed
        else Cons(Number(t, i + 1, n) as char, ReadFrom(t, i + 1 + n))
      else if c == '\n' && At(t, i + 2) == '\r' then Cons('\n', ReadFrom(t, i + 3))
      else if c == '\r' then Cons('\n', ReadFrom(t, if At(t, i + 2) == '\n' then i + 3 else i + 2))
      else Cons(Named(c), ReadFrom(t, i + 2))
  }

  function ReadLiteral(t: string): Read {
    if t != "" && t[0] == '"' then ReadFrom(t, 1) else Malformed
  }

  /** What was quoted reads back as it was. */
  lemma RoundTrip(s: string)
    ensures ReadLiteral(Quote(s)) == Text(s)
  {
    assert s[0..] == s;
    ReadBody(Quote(s), 1, s, 0);
  }

  /** If the escaped text from j on and the closing quote are what t has from i on, then that reads back. */
  lemma {:induction false} ReadBody(t: string, i: nat, s: string, j: nat)
    requires j <= |s| && i <= |t| && t[i..] == Body(s, j) + "\""
    ensures ReadFrom(t, i) == Text(s[j..])
    decreases |s| - j
  {
    hide Escaped, ReadFrom;
    if j < |s| {
      var e, rest := Escaped(s[j], At(s, j + 1)), Body(s, j + 1) + "\"";
      Appended(e, Body(s, j + 1), "\"");
      assert t[i..] == e + rest;
      assert t[i + |e|..] == rest;
      ReadBody(t, i + |e|, s, j + 1);
      FirstOf(s, j + 1);
      ReadOne(t, i, s[j], At(s, j + 1), rest);
      assert s[j..] == [s[j]] + s[j + 1..];
    } else {
      ReadEnd(t, i);
    }
  }

  lemma ReadEnd(t: string, i: nat)
    requires i <= |t| && t[i..] == "\""
    ensures ReadFrom(t, i) == Text("")
  {
    assert t[i..][0] == t[i];
  }

  /** What follows an escaped character is a digit only if the next character is, and is no carriage return. */
  lemma FirstOf(s: string, j: nat)
    requires j <= |s|
    ensures var rest := Body(s, j) + "\"";
      rest != "" && rest[0] != '\r' && (IsDigit(rest[0]) ==> IsDigit(At(s, j)))
  {
  }

  lemma ReadOne(t: string, i: nat, c: char, next: char, rest: string)
    requires i <= |t| && t[i..] == Escaped(c, next) + rest
    requires rest != "" && rest[0] != '\r' && (IsDigit(rest[0]) ==> IsDigit(next))
    ensures ReadFrom(t, i) == Cons(c, ReadFrom(t, i + |Escaped(c, next)|))
  {
    var e := Escaped(c, next);
    forall k | 0 <= k < |e|
      ensures At(t, i + k) == e[k]
    {
      assert t[i..][k] == e[k];
    }
    assert At(t, i + |e|) == rest[0] by {
      assert t[i..][|e|] == rest[0];
    }
    if IsControl(c) && c != '\n' {
      ReadDigits(t, i + 1, c, next);
    }
  }

  /** Two digits are read as two, and a third only where one was written. */
  lemma ReadDigits(t: string, i: nat, c: char, next: char)
    requires IsControl(c) && c != '\n'
    requires var e := Escaped(c, next); forall k | 1 <= k < |e| :: At(t, i - 1 + k) == e[k]
    requires i > 0 && (IsDigit(At(t, i - 1 + |Escaped(c, next)|)) ==> IsDigit(next))
    ensures var n := |Escaped(c, next)| - 1; Digits(t, i) == n && Number(t, i, n) == c as int
  {
    var e := Escaped(c, next);
    var n := |e| - 1;
    assert At(t, i) == e[1];
    if n >= 2 {
      assert At(t, i + 1) == e[2];
    }
    if n >= 3 {
      assert At(t, i + 2) == e[3];
    }
    Digits3(t, i, n);
  }

  lemma Digits3(t: string, i: nat, n: nat)
    requires 1 <= n <= 3 && forall k | i <= k < i + n :: IsDigit(At(t, k))
    ensures n == 1 ==> Number(t, i, n) == DigitAt(t, i)
    ensures n == 2 ==> Number(t, i, n) == 10 * DigitAt(t, i) + DigitAt(t, i + 1)
    ensures n == 3 ==> Number(t, i, n) == 100 * DigitAt(t, i) + 10 * DigitAt(t, i + 1) + DigitAt(t, i + 2)
  {
    assert Number(t, i, 0) == 0;
    assert Number(t, i, 1) == DigitAt(t, i);
  }
}
