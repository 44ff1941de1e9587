/** Number literals and declared widths. */
module Literals {
  import opened Tokens

  function Without(s: string, c: char): string {
    if s == "" then "" else (if s[0] == c then "" else [s[0]]) + Without(s[1..], c)
  }

  function Lower(s: string): string {
    if s == "" then ""
    else [if 'A' <= s[0] <= 'Z' then (s[0] as int + 32) as char else s[0]] + Lower(s[1..])
  }

  /** The value of one digit; a value of 36 or more fits no base. */
  function DigitValue(c: char): nat {
    if '0' <= c <= '9' then c as int - '0' as int
    else if 'a' <= c <= 'z' then c as int - 'a' as int + 10
    else if 'A' <= c <= 'Z' then c as int - 'A' as int + 10
    else 36
  }

  function DigitsValue(s: string, base: nat): Option<nat> {
    if s == "" then Some(0)
    else
      var d := DigitValue(s[|s| - 1]);
      var front := DigitsValue(s[..|s| - 1], base);
      if d < base && front.Some? then Some(front.value * base + d) else None
  }

  /** Digits without a sign, with the 0b or 0o prefix Python accepts in the matching base. */
  function Unsigned(s: string, base: nat): Option<nat> {
    if s == "" then None
    else if |s| > 2 && s[0] == '0' && ((base == 2 && s[1] in "bB") || (base == 8 && s[1] in "oO"))
    then DigitsValue(s[2..], base)
    else DigitsValue(s, base)
  }

  /** Python's int(text, base) on text of letters, digits and signs. */
  function PyInt(s: string, base: nat): Option<int> {
    var magnitude := Unsigned(if s != "" && s[0] in "+-" then s[1..] else s, base);
    if magnitude.None? then None
    else
      var n: int := magnitude.value;
      Some(if s != "" && s[0] == '-' then -n else n)
  }

  /** The position of the first quote, or the length. */
  function QuoteAt(s: string): (i: nat)
    ensures i <= |s|
  {
    if s == "" || s[0] == '\'' then 0 else 1 + QuoteAt(s[1..])
  }

  function ParseInt(value: string): Option<int> {
    var text := Without(value, '_');
    if '\'' !in text then PyInt(text, 10)
    else
      var q := QuoteAt(text);
      var rest := if q < |text| then Lower(text[q + 1..]) else "";
      if rest == "" then None
      else if rest[0] == 's' && |rest| < 2 then None
      else
        var (baseChar, digits) := if rest[0] == 's' then (rest[1], rest[2..]) else (rest[0], rest[1..]);
        if 'x' in digits || 'z' in digits || '?' in digits then None
        else if baseChar == 'b' then PyInt(digits, 2)
        else if baseChar == 'o' then PyInt(digits, 8)
        else if baseChar == 'd' then PyInt(digits, 10)
        else if baseChar == 'h' then PyInt(digits, 16)
        else None
  }

  function BitLength(n: nat): nat {
    if n == 0 then 0 else 1 + BitLength(n / 2)
  }

  function Absolute(n: int): nat {
    if n >= 0 then n else -n
  }

  /** The width of a number token, which starts with a digit or a quote, never with a sign. */
  function LiteralWidth(value: string): Option<nat> {
    if '\'' in value then
      var widthText := value[..QuoteAt(value)];
      if widthText == "" then None else Unsigned(Without(widthText, '_'), 10)
    else
      var parsed := ParseInt(value);
      if parsed.None? then None
      else
        var length := BitLength(Absolute(parsed.value));
        Some(if length > 1 then length else 1)
  }

  function Pow2(n: nat): (p: nat)
    ensures p > 0
  {
    if n == 0 then 1 else 2 * Pow2(n - 1)
  }

  /** An unsized literal gets the fewest bits that hold its value. */
  lemma {:induction false} BitLengthIsLeast(n: nat)
    ensures n < Pow2(BitLength(n)) && (n > 0 ==> Pow2(BitLength(n) - 1) <= n)
  {
    if n > 0 {
      BitLengthIsLeast(n / 2);
    }
  }

  /** A declared signal with the bounds of its range when the range is two
      plain decimal numbers. */
  datatype Signal = Signal(bounds: Option<(nat, nat)>)

  function Distance(a: int, b: int): nat {
    if a >= b then a - b else b - a
  }

  function SignalWidth(s: Signal): nat {
    match s.bounds
    case None => 1
    case Some((a, b)) => Distance(a, b) + 1
  }
}
