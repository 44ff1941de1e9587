/** Number literals written out and read back. */
module NumberText {
  import opened Tokens
  import opened Literals

  const DIGITS := "0123456789abcdef"

  /** The digits of a number in a base, the most significant first. */
  function Printed(n: nat, base: nat): (s: string)
    requires 2 <= base <= 16
    ensures s != ""
  {
    var (q, d) := Divided(n, base);
    DividedShrinks(n, base);
    (if q == 0 then "" else Printed(q, base)) + [DIGITS[d]]
  }

  /** A digit of some base: no sign, underscore, quote or upper-case letter. */
  predicate IsDigit(c: char, base: nat) {
    ('0' <= c <= '9' || 'a' <= c <= 'f') && DigitValue(c) < base
  }

  predicate AllDigits(s: string, base: nat) { forall k :: 0 <= k < |s| ==> IsDigit(s[k], base) }

  lemma DigitRead(d: nat)
    requires d < 16
    ensures DigitValue(DIGITS[d]) == d && ('0' <= DIGITS[d] <= '9' || 'a' <= DIGITS[d] <= 'f')
  {
    assert DIGITS[..10] == "0123456789" && DIGITS[10..] == "abcdef";
    if d < 10 { assert DIGITS[d] == "0123456789"[d]; } else { assert DIGITS[d] == "abcdef"[d - 10]; }
  }

  lemma DigitsSnoc(front: string, c: char, base: nat)
    ensures DigitsValue(front + [c], base) ==
      var f := DigitsValue(front, base);
      if DigitValue(c) < base && f.Some? then Some(f.value * base + DigitValue(c)) else None
  {
    var s := front + [c];
    assert s[..|s| - 1] == front && s[|s| - 1] == c;
  }

  lemma AllDigitsSnoc(front: string, c: char, base: nat)
    requires AllDigits(front, base) && IsDigit(c, base)
    ensures AllDigits(front + [c], base)
  {
    hide IsDigit;
  }

  /** What is printed in a base is read back in it. */
  lemma {:induction false} PrintedReads(n: nat, base: nat)
    requires 2 <= base <= 16
    ensures AllDigits(Printed(n, base), base) && DigitsValue(Printed(n, base), base) == Some(n)
  {
    hide *;
    var (q, d) := Divided(n, base);
    DividedShrinks(n, base);
    PrintedStep(n, base, q, d);
    if q == 0 {
      NoDigits(base);
      Snoc("", 0, d, base);
    } else {
      PrintedReads(q, base);
      Snoc(Printed(q, base), q, d, base);
    }
  }

  /** Quotient and remainder. */
  function Divided(n: nat, base: nat): (r: (nat, nat))
    requires base >= 2
    ensures n == r.0 * base + r.1 && r.1 < base
  {
    (n / base, n % base)
  }

  lemma DividedShrinks(n: nat, base: nat)
    requires base >= 2
    ensures var q := Divided(n, base).0; (q == 0 <==> n < base) && (q > 0 ==> q < n)
  {
    hide Divided;
    var (q, d) := Divided(n, base);
    if q > 0 { TimesTwo(q, base); }
  }

  lemma TimesTwo(q: nat, base: nat)
    requires base >= 2
    ensures q * base >= q + q && (q > 0 ==> q * base >= base)
  {
    assert q * base == q * (base - 2) + q + q;
    if q > 0 { assert q * base == (q - 1) * base + base; }
  }

  lemma NoDigits(base: nat)
    ensures DigitsValue("", base) == Some(0) && AllDigits("", base)
  {
  }

  lemma PrintedStep(n: nat, base: nat, q: nat, d: nat)
    requires 2 <= base <= 16 && (q, d) == Divided(n, base)
    ensures d < 16 && Printed(n, base) == (if q == 0 then "" else Printed(q, base)) + [DIGITS[d]]
  {
    DividedShrinks(n, base);
  }

  lemma Snoc(front: string, q: nat, d: nat, base: nat)
    requires 2 <= base <= 16 && d < base && AllDigits(front, base) && DigitsValue(front, base) == Some(q)
    ensures AllDigits(front + [DIGITS[d]], base) && DigitsValue(front + [DIGITS[d]], base) == Some(q * base + d)
  {
    DigitRead(d);
    DigitsSnoc(front, DIGITS[d], base);
    AllDigitsSnoc(front, DIGITS[d], base);
  }

  // ----- literals -----

  predicate IsBase(base: nat) { base == 2 || base == 8 || base == 10 || base == 16 }

  /** The letter of a base. */
  function Letter(base: nat): char
    requires IsBase(base)
  {
    if base == 2 then 'b' else if base == 8 then 'o' else if base == 10 then 'd' else 'h'
  }

  lemma NumberReads(n: nat, base: nat)
    requires IsBase(base)
    ensures Unsigned(Printed(n, base), base) == Some(n) && PyInt(Printed(n, base), base) == Some(n)
  {
    hide Printed, DigitsValue;
    PrintedReads(n, base);
    var s := Printed(n, base);
    assert IsDigit(s[0], base);
    if |s| > 1 { assert IsDigit(s[1], base); }
  }

  lemma {:induction false} WithoutKeeps(s: string, c: char, x: char)
    requires x != c
    ensures x in Without(s, c) <==> x in s
  {
    if s != "" { WithoutKeeps(s[1..], c, x); }
  }

  lemma {:induction false} LowerAppend(x: string, y: string)
    ensures Lower(x + y) == Lower(x) + Lower(y)
    decreases |x|
  {
    if x == "" {
      assert x + y == y;
    } else {
      assert (x + y)[1..] == x[1..] + y;
      LowerAppend(x[1..], y);
    }
  }

  lemma {:induction false} LowerKeepsQuotes(s: string)
    ensures |Lower(s)| == |s| && QuoteAt(Lower(s)) == QuoteAt(s) && ('\'' in Lower(s) <==> '\'' in s)
  {
    if s != "" { LowerKeepsQuotes(s[1..]); }
  }

  lemma LowerTail(s: string, k: nat)
    requires k <= |s|
    ensures |Lower(s)| == |s| && Lower(s)[..k] == Lower(s[..k]) && Lower(s)[k..] == Lower(s[k..])
  {
    assert s == s[..k] + s[k..];
    LowerAppend(s[..k], s[k..]);
    LowerKeepsQuotes(s);
    LowerKeepsQuotes(s[..k]);
  }

  lemma {:induction false} LowerDigits(s: string)
    requires AllDigits(Lower(s), 10)
    ensures Lower(s) == s
  {
    if s != "" {
      LowerKeepsQuotes(s);
      LowerKeepsQuotes(s[1..]);
      assert IsDigit(Lower(s)[0], 10);
      assert forall k :: 0 <= k < |s[1..]| ==> Lower(s[1..])[k] == Lower(s)[k + 1];
      LowerDigits(s[1..]);
    }
  }

  lemma {:induction false} QuoteAfter(prefix: string, rest: string)
    requires '\'' !in prefix
    ensures QuoteAt(prefix + ("'" + rest)) == |prefix|
  {
    var s := prefix + ("'" + rest);
    if prefix != "" {
      assert s[1..] == prefix[1..] + ("'" + rest);
      QuoteAfter(prefix[1..], rest);
    }
  }

  lemma {:induction false} QuoteWithout(s: string)
    ensures Without(s[..QuoteAt(s)], '_') == Without(s, '_')[..QuoteAt(Without(s, '_'))]
  {
    if s != "" && s[0] != '\'' {
      var (front, rest) := (s[..QuoteAt(s)], s[1..]);
      QuoteWithout(rest);
      assert front == [s[0]] + rest[..QuoteAt(rest)] && s == [s[0]] + rest;
      WithoutCons(s[0], rest);
      WithoutCons(s[0], rest[..QuoteAt(rest)]);
    }
  }

  lemma WithoutCons(x: char, s: string)
    ensures Without([x] + s, '_') == if x == '_' then Without(s, '_') else [x] + Without(s, '_')
  {
    assert ([x] + s)[1..] == s;
    assert "" + Without(s, '_') == Without(s, '_');
  }

  lemma NoQuoteIn(n: nat)
    ensures '\'' !in Printed(n, 10)
  {
    PrintedReads(n, 10);
    NoQuote(Printed(n, 10), 10);
    hide Printed;
  }

  lemma PlainValue(v: string, n: nat)
    requires Without(v, '_') == Printed(n, 10)
    ensures ParseInt(v) == Some(n)
  {
    NoQuoteIn(n);
    NumberReads(n, 10);
    hide Printed, PyInt, Without;
  }

  /** A number without a base: its value, and the fewest bits that hold it, at least one. */
  lemma PlainLiteral(v: string, n: nat)
    requires Without(v, '_') == Printed(n, 10)
    ensures ParseInt(v) == Some(n)
    ensures var w := LiteralWidth(v);
      w.Some? && w.value >= 1 && n < Pow2(w.value) && (w.value > 1 ==> Pow2(w.value - 1) <= n)
  {
    PlainValue(v, n);
    NoQuoteIn(n);
    WithoutKeeps(v, '_', '\'');
    hide *;
    PlainWidth(v, n);
  }

  lemma PlainWidth(v: string, n: nat)
    requires '\'' !in v && ParseInt(v) == Some(n)
    ensures var w := LiteralWidth(v);
      w.Some? && w.value >= 1 && n < Pow2(w.value) && (w.value > 1 ==> Pow2(w.value - 1) <= n)
  {
    assert Absolute(n) == n;
    BitLengthIsLeast(n);
    hide ParseInt;
    if n == 0 { assert BitLength(0) == 0 && Pow2(1) == 2; }
  }

  lemma NoQuote(s: string, base: nat)
    requires AllDigits(s, base)
    ensures '\'' !in s && '_' !in s && (base <= 16 ==> 'x' !in s && 'z' !in s && '?' !in s)
  {
    forall k | 0 <= k < |s| ensures s[k] != '\'' && s[k] != '_' && s[k] != 'x' && s[k] != 'z' && s[k] != '?' {
      assert IsDigit(s[k], base);
    }
  }

  /** A literal with a base, in letters of either case and with underscores anywhere. */
  ghost predicate IsBased(v: string, prefix: string, signed: bool, n: nat, base: nat) {
    && IsBase(base) && '\'' !in prefix
    && Lower(Without(v, '_')) == prefix + ("'" + AfterQuote(signed, n, base))
  }

  /** What stands after the quote of such a literal. */
  function AfterQuote(signed: bool, n: nat, base: nat): string
    requires IsBase(base)
  {
    (if signed then "s" else "") + ([Letter(base)] + Printed(n, base))
  }

  lemma PartsOfLiteral(v: string, prefix: string, signed: bool, n: nat, base: nat)
    requires IsBase(base) && '\'' !in prefix && Lower(Without(v, '_')) == prefix + ("'" + AfterQuote(signed, n, base))
    ensures var text := Without(v, '_');
      && '\'' in text && '\'' in v && QuoteAt(text) == |prefix| < |text|
      && Lower(text[|prefix| + 1..]) == AfterQuote(signed, n, base) && Lower(text[..|prefix|]) == prefix
  {
    var (text, rest) := (Without(v, '_'), AfterQuote(signed, n, base));
    var whole := prefix + ("'" + rest);
    hide *;
    assert |whole| > |prefix| && whole[|prefix|] == '\'' && whole[|prefix| + 1..] == rest &&
      whole[..|prefix|] == prefix;
    QuoteAfter(prefix, rest);
    LowerKeepsQuotes(text);
    LowerTail(text, |prefix| + 1);
    LowerTail(text, |prefix|);
    WithoutKeeps(v, '_', '\'');
  }

  lemma BodyReads(signed: bool, n: nat, base: nat)
    requires IsBase(base)
    ensures var rest := AfterQuote(signed, n, base);
      && |rest| >= 2 && (rest[0] == 's' <==> signed)
      && (if signed then rest[1] == Letter(base) && rest[2..] == Printed(n, base)
          else rest[0] == Letter(base) && rest[1..] == Printed(n, base))
      && 'x' !in Printed(n, base) && 'z' !in Printed(n, base) && '?' !in Printed(n, base)
      && PyInt(Printed(n, base), base) == Some(n)
  {
    PrintedReads(n, base);
    NoQuote(Printed(n, base), base);
    NumberReads(n, base);
    hide Printed, PyInt, AllDigits, DigitsValue;
    RestStarts(signed, Letter(base), Printed(n, base));
  }

  lemma RestStarts(signed: bool, letter: char, digits: string)
    requires letter != 's' && digits != ""
    ensures var rest := (if signed then "s" else "") + ([letter] + digits);
      && |rest| >= 2 && (rest[0] == 's' <==> signed)
      && (if signed then rest[1] == letter && rest[2..] == digits else rest[0] == letter && rest[1..] == digits)
  {
    var body := [letter] + digits;
    assert body[0] == letter && body[1..] == digits;
    if signed { assert ("s" + body)[1..] == body && ("s" + body)[2..] == body[1..]; } else { assert "" + body == body; }
  }

  lemma BasedValue(v: string, prefix: string, signed: bool, n: nat, base: nat)
    requires IsBased(v, prefix, signed, n, base)
    ensures ParseInt(v) == Some(n)
  {
    hide Printed, PyInt, Without, Lower, QuoteAt, AfterQuote;
    PartsOfLiteral(v, prefix, signed, n, base);
    BodyReads(signed, n, base);
  }

  /** The width of a literal with a base is the number before its quote, and there is none
      without one, whatever stands after the quote. */
  lemma BasedWidth(front: string, rest: string, width: nat)
    requires '\'' !in front
    ensures Without(front, '_') == Printed(width, 10) ==> LiteralWidth(front + ("'" + rest)) == Some(width)
    ensures front == "" ==> LiteralWidth(front + ("'" + rest)) == None
  {
    var v := front + ("'" + rest);
    hide Printed, Unsigned, Without;
    QuoteAfter(front, rest);
    assert v[|front|] == '\'' && v[..|front|] == front;
    NumberReads(width, 10);
    if front == "" { assert Without("", '_') == "" by { NothingWithout(); } }
  }

  lemma NothingWithout()
    ensures Without("", '_') == ""
  {
  }

  lemma SignedNumber(n: nat, minus: bool)
    ensures var m: int := n;
      PyInt((if minus then "-" else "+") + Printed(n, 10), 10) == Some(if minus then -m else m)
  {
    var digits := Printed(n, 10);
    NumberReads(n, 10);
    hide Printed, Unsigned;
    if minus { SignIsRead('-', digits); } else { SignIsRead('+', digits); }
  }

  lemma SignIsRead(sign: char, digits: string)
    requires sign == '-' || sign == '+'
    ensures PyInt([sign] + digits, 10) ==
        if Unsigned(digits, 10).None? then None
        else (var n: int := Unsigned(digits, 10).value; Some(if sign == '-' then -n else n))
  {
    var text := [sign] + digits;
    hide Unsigned;
    assert text[1..] == digits && text[0] == sign && sign in "+-";
  }

  lemma NoQuoteBehindSign(n: nat, minus: bool)
    ensures '\'' !in (if minus then "-" else "+") + Printed(n, 10)
  {
    PrintedReads(n, 10);
    NoQuote(Printed(n, 10), 10);
    hide Printed;
  }

  /** A sign in front of a plain number counts. */
  lemma SignedLiteral(v: string, n: nat, minus: bool)
    requires Without(v, '_') == (if minus then "-" else "+") + Printed(n, 10)
    ensures var m: int := n; ParseInt(v) == Some(if minus then -m else m)
  {
    SignedNumber(n, minus);
    NoQuoteBehindSign(n, minus);
    hide Printed, PyInt, Without;
  }

  /** Text is a number exactly when it has a character and all of them are digits of the base. */
  lemma {:induction false} NumberIffDigits(s: string, base: nat)
    ensures DigitsValue(s, base).Some? <==> forall k :: 0 <= k < |s| ==> DigitValue(s[k]) < base
  {
    if s != "" {
      var front := s[..|s| - 1];
      NumberIffDigits(front, base);
      hide DigitValue;
      assert forall k :: 0 <= k < |front| ==> front[k] == s[k];
    }
  }

  /** A literal with an unknown digit, or with a base that is none, has no value. */
  lemma NoValue(v: string, prefix: string, letter: char, digits: string)
    requires '\'' !in prefix && letter != 's' && Lower(Without(v, '_')) == prefix + ("'" + ([letter] + digits))
    requires 'x' in digits || 'z' in digits || '?' in digits || letter !in {'b', 'o', 'd', 'h'}
    ensures ParseInt(v) == None
  {
    var (text, rest) := (Without(v, '_'), [letter] + digits);
    var whole := prefix + ("'" + rest);
    hide PyInt, Without, Lower, QuoteAt;
    QuoteAfter(prefix, rest);
    LowerKeepsQuotes(text);
    LowerTail(text, |prefix| + 1);
    assert whole[|prefix|] == '\'' && whole[|prefix| + 1..] == rest;
    assert rest[0] == letter && rest[1..] == digits;
  }

  /** Python's prefix of a binary or octal number is accepted in its own base. */
  lemma PrefixedNumber(n: nat)
    ensures Unsigned("0b" + Printed(n, 2), 2) == Some(n) && Unsigned("0o" + Printed(n, 8), 8) == Some(n)
  {
    PrintedReads(n, 2);
    PrintedReads(n, 8);
    hide Printed, DigitsValue;
    assert ("0b" + Printed(n, 2))[2..] == Printed(n, 2) && ("0o" + Printed(n, 8))[2..] == Printed(n, 8);
  }
}
