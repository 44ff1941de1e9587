/** What each token of a line is and how far it goes, and which literals are reported. */
module LexerKinds {
  import opened Tokens
  import opened Lexer

  predicate WordStart(c: Classes, x: char) { c.alpha(x) || x == '_' || x == '$' }

  predicate WordChar(c: Classes, x: char) { c.alnum(x) || x == '_' || x == '$' }

  predicate NumberChar(c: Classes, x: char) { c.alnum(x) || x == '_' || x == '\'' || x == '?' }

  predicate BasedChar(c: Classes, x: char) { c.alnum(x) || x == '_' || x == '?' }

  const BASES := {'s', 'S', 'b', 'B', 'o', 'O', 'd', 'D', 'h', 'H'}

  const SYMBOLS := {'(', ')', '[', ']', '{', '}', ';', ',', '.', '@', '#', '\''}

  const SINGLE_OPERATORS := {'+', '-', '*', '/', '%', '&', '|', '^', '~', '!', '<', '>', '=', '?', ':'}

  /** The backslashes right before position k of a text that starts with a quote. */
  function Slashes(v: string, k: nat): nat
    requires k <= |v|
  {
    if k <= 1 || v[k - 1] != '\\' then 0 else 1 + Slashes(v, k - 1)
  }

  /** A double quote that ends a string that starts at 0. */
  predicate Ends(v: string, k: nat)
    requires k < |v|
  {
    v[k] == '"' && Slashes(v, k) % 2 == 0
  }

  predicate Closed(v: string) { |v| >= 2 && Ends(v, |v| - 1) }

  /** Text i..j of a line is one token of the kind: where it starts decides what it is,
      and it goes on as long as it can. */
  ghost predicate TokenAt(c: Classes, text: string, i: nat, j: nat, kind: Kind)
    requires i < j <= |text|
  {
    var (x, v) := (text[i], text[i..j]);
    if x == '\\' then
      && kind == Identifier && (forall k :: i < k < j ==> !c.space(text[k]))
      && (j < |text| ==> c.space(text[j]))
    else if WordStart(c, x) then
      && kind == (if v in Keywords() then Keyword else Identifier)
      && (forall k :: i < k < j ==> WordChar(c, text[k])) && (j < |text| ==> !WordChar(c, text[j]))
    else if c.digit(x) then
      && kind == Number
      && (forall k :: i < k < j ==> NumberChar(c, text[k])) && (j < |text| ==> !NumberChar(c, text[j]))
    else if x == '\'' && i + 1 < |text| && text[i + 1] in BASES then
      && kind == Number && i + 1 < j
      && (forall k :: i < k < j ==> BasedChar(c, text[k])) && (j < |text| ==> !BasedChar(c, text[j]))
    else if x == '"' then
      && kind == Kind.Text && (forall k :: 0 < k < |v| - 1 ==> !Ends(v, k))
      && (Closed(v) || (j == |text| && (|v| >= 2 ==> !Ends(v, |v| - 1))))
    else
      && (kind == Operator || kind == Symbol)
      && (kind == Operator <==> v in Operators() || (|v| == 1 && x in SINGLE_OPERATORS))
      && (kind == Symbol <==> |v| == 1 && x in SYMBOLS)
  }

  /** Digits, a quote, perhaps a sign letter, a base letter and at least one digit. */
  ghost predicate IsBasedNumber(c: Classes, v: string) {
    exists n, m :: 0 <= n < m && m + 1 < |v| && BasedParts(c, v, n, m)
  }

  ghost predicate BasedParts(c: Classes, v: string, n: nat, m: nat)
    requires n < m && m + 1 < |v|
  {
    && (forall k :: 0 <= k < n ==> c.decimal(v[k])) && v[n] == '\''
    && (m == n + 1 || (m == n + 2 && v[n + 1] in {'s', 'S'}))
    && v[m] in {'b', 'B', 'o', 'O', 'd', 'D', 'h', 'H'}
    && forall k :: m < k < |v| ==> BasedDigit(v[k])
  }

  predicate BasedDigit(x: char) {
    '0' <= x <= '9' || 'a' <= x <= 'f' || 'A' <= x <= 'F' || x in {'x', 'X', 'z', 'Z', '?', '_'}
  }

  /** A digit, or digits and underscores between two digits. */
  ghost predicate IsPlainNumber(c: Classes, v: string) {
    && v != "" && c.decimal(v[0]) && c.decimal(v[|v| - 1])
    && forall k :: 0 < k < |v| - 1 ==> '0' <= v[k] <= '9' || v[k] == '_'
  }

  /** What is reported of a token, if anything. */
  ghost function ProblemOf(c: Classes, kind: Kind, v: string): Option<Problem>
    requires v != ""
  {
    if kind == Number && v[0] == '\'' then Some(UnsizedNumber)
    else if kind == Number then
      if (if '\'' in v then IsBasedNumber(c, v) else IsPlainNumber(c, v)) then None else Some(MalformedNumber)
    else if kind == Kind.Text && !Closed(v) then Some(UnterminatedString)
    else None
  }

  // ----- one scan -----

  lemma RunSpelled(text: string, i: nat, n: nat, p: char -> bool)
    requires i < |text| && n == Run(text[i + 1..], p)
    ensures i + 1 + n <= |text| && (forall k :: i < k < i + 1 + n ==> p(text[k]))
    ensures i + 1 + n < |text| ==> !p(text[i + 1 + n])
  {
    var s := text[i + 1..];
    assert forall k :: 0 <= k < n ==> s[k] == text[i + 1 + k];
    forall k | i < k < i + 1 + n ensures p(text[k]) {
      assert p(s[k - i - 1]);
    }
  }

  lemma {:induction false} StringSpelled(v: string, k: nat)
    requires 1 <= k <= |v|
    ensures var (n, closed) := StringRun(v[k..], Slashes(v, k) % 2 == 1);
      && k + n <= |v| && (closed ==> n > 0 && Ends(v, k + n - 1)) && (!closed ==> k + n == |v|)
      && forall j :: k <= j < (if closed then k + n - 1 else k + n) ==> !Ends(v, j)
    decreases |v| - k
  {
    if k < |v| {
      assert v[k..][1..] == v[k + 1..] && v[k..][0] == v[k];
      if !(v[k] == '"' && Slashes(v, k) % 2 == 0) { StringSpelled(v, k + 1); }
    }
  }

  lemma {:induction false} SlashesInFront(v: string, w: string, k: nat)
    requires k <= |v| <= |w| && w[..|v|] == v
    ensures Slashes(v, k) == Slashes(w, k)
  {
    if k > 1 {
      assert w[k - 1] == w[..|v|][k - 1];
      SlashesInFront(v, w, k - 1);
    }
  }

  /** Where the base letter stands when the quote stands at n. */
  function BaseAt(v: string, n: nat): nat {
    if n + 1 < |v| && v[n + 1] in {'s', 'S'} then n + 2 else n + 1
  }

  lemma BodyAt(v: string, n: nat)
    requires n < |v|
    ensures BaseAt(v, n) <= |v| && Unsigned(v[n + 1..]) == v[BaseAt(v, n)..]
  {
    var rest := v[n + 1..];
    if rest != "" {
      BaseSpelled(rest[0]);
      assert rest[1..] == v[n + 2..] && rest[0] == v[n + 1];
    }
  }

  lemma BodyValid(v: string, m: nat)
    requires m <= |v|
    ensures ValidBody(v[m..]) <==> DigitsFrom(v, m)
  {
    var body := v[m..];
    if |body| >= 2 {
      var digits := body[1..];
      BaseSpelled(v[m]);
      assert digits == v[m + 1..];
      forall x: char ensures BasedDigit(x) <==> DigitChars()(x) { DigitsSpelled(x); }
      hide BasedDigit, DigitChars;
      assert forall k :: m < k < |v| ==> v[k] == digits[k - m - 1];
      assert forall k :: 0 <= k < |digits| ==> digits[k] == v[m + 1 + k];
    }
  }

  lemma ValidBasedIs(c: Classes, v: string, n: nat)
    requires n == Run(v, c.decimal) && n < |v| && v[n] == '\''
    ensures ValidBased(c, v) <==> ValidBody(Unsigned(v[n + 1..]))
    ensures forall k :: 0 <= k < n ==> c.decimal(v[k])
  {
    hide ValidBody, Unsigned;
  }

  /** A base letter at m, and digits after it. */
  predicate DigitsFrom(v: string, m: nat) {
    m + 1 < |v| && v[m] in {'b', 'B', 'o', 'O', 'd', 'D', 'h', 'H'} && forall k :: m < k < |v| ==> BasedDigit(v[k])
  }

  lemma PartsFrom(c: Classes, v: string, n: nat, m: nat)
    requires n < |v| && v[n] == '\'' && m == BaseAt(v, n) && forall k :: 0 <= k < n ==> c.decimal(v[k])
    ensures n < m && (DigitsFrom(v, m) <==> m + 1 < |v| && BasedParts(c, v, n, m))
  {
    hide BasedDigit;
  }

  lemma ValidAtQuote(c: Classes, v: string, n: nat)
    requires n == Run(v, c.decimal) && n < |v| && v[n] == '\''
    ensures var m := BaseAt(v, n); n < m && (ValidBased(c, v) <==> m + 1 < |v| && BasedParts(c, v, n, m))
  {
    hide *;
    ValidBasedIs(c, v, n);
    BodyAt(v, n);
    BodyValid(v, BaseAt(v, n));
    PartsFrom(c, v, n, BaseAt(v, n));
  }

  /** The parts of a based number are where the scan finds them. */
  lemma PartsAreUnique(c: Classes, v: string, n: nat, m: nat)
    requires ClassesOk(c) && n < m && m + 1 < |v| && BasedParts(c, v, n, m)
    ensures n == Run(v, c.decimal) && m == BaseAt(v, n)
  {
    QuoteIsNoDigit(c);
    hide ClassesOk, BasedDigit;
    BaseIsNoSign();
  }

  lemma BasedSpelled(c: Classes, v: string)
    requires ClassesOk(c)
    ensures ValidBased(c, v) <==> IsBasedNumber(c, v)
  {
    hide ClassesOk, BasedParts, BaseAt, BasedDigit;
    var n := Run(v, c.decimal);
    if n < |v| && v[n] == '\'' {
      ValidAtQuote(c, v, n);
    }
    if IsBasedNumber(c, v) {
      var n', m :| 0 <= n' < m && m + 1 < |v| && BasedParts(c, v, n', m);
      PartsAreUnique(c, v, n', m);
      QuoteInParts(c, v, n', m);
    }
  }

  lemma QuoteInParts(c: Classes, v: string, n: nat, m: nat)
    requires n < m && m + 1 < |v| && BasedParts(c, v, n, m)
    ensures v[n] == '\''
  {
  }

  lemma BaseIsNoSign()
    ensures {'b', 'B', 'o', 'O', 'd', 'D', 'h', 'H'} !! {'s', 'S'}
  {
  }

  lemma QuoteIsNoDigit(c: Classes)
    requires ClassesOk(c)
    ensures !c.decimal('\'') && !c.digit('\'') && !c.digit('"')
  {
    assert '\'' in SingleSymbols();
    assert '"' in "\\\"_$";
  }

  lemma DigitsSpelled(x: char)
    ensures BasedDigit(x) <==> DigitChars()(x)
  {
  }

  lemma BaseSpelled(x: char)
    ensures x in "bBoOdDhH" <==> x in {'b', 'B', 'o', 'O', 'd', 'D', 'h', 'H'}
    ensures x in "sS" <==> x in {'s', 'S'}
    ensures x in "sSbBoOdDhH" <==> x in BASES
    ensures x in "sS" ==> x !in "bBoOdDhH"
  {
  }

  lemma PlainSpelled(c: Classes, v: string)
    ensures ValidDecimal(c, v) <==> IsPlainNumber(c, v)
  {
    if v != "" {
      var inner := if |v| > 1 then v[1..|v| - 1] else "";
      assert forall k :: 0 < k < |v| - 1 ==> inner[k - 1] == v[k];
      forall x: char ensures x in "0123456789_" <==> '0' <= x <= '9' || x == '_' {}
    }
  }

  lemma NumberSpelled(c: Classes, v: string)
    requires ClassesOk(c)
    ensures ValidNumber(c, v) <==> if '\'' in v then IsBasedNumber(c, v) else IsPlainNumber(c, v)
  {
    BasedSpelled(c, v);
    PlainSpelled(c, v);
    hide ValidBased, ValidDecimal, IsBasedNumber, IsPlainNumber;
  }

  /** What a scan at position i is said to find. */
  ghost predicate ScanIs(c: Classes, text: string, i: nat, r: Scan)
    requires i < |text|
  {
    match r
    case Lexeme(kind, n, problem) =>
      && 0 < n && i + n <= |text| && TokenAt(c, text, i, i + n, kind)
      && problem == ProblemOf(c, kind, text[i..i + n])
    case Unknown => UnknownChar(c, text[i])
  }

  /** A character that starts no token. */
  predicate UnknownChar(c: Classes, x: char) {
    && x != '\\' && x != '"' && !WordStart(c, x) && !c.digit(x)
    && x !in SYMBOLS && x !in SINGLE_OPERATORS
  }

  lemma StartIsIdent(c: Classes, x: char)
    ensures WordStart(c, x) <==> IdentStart(c, x)
  {
  }

  lemma RestOf(text: string, i: nat)
    requires i < |text|
    ensures text[i..] != "" && text[i..][0] == text[i] && text[i..][1..] == text[i + 1..]
    ensures forall n :: 0 <= n <= |text| - i ==> text[i..][..n] == text[i..i + n]
    ensures i + 1 < |text| ==> text[i..][1] == text[i + 1]
  {
  }

  lemma Found(c: Classes, text: string, i: nat, kind: Kind, n: nat, problem: Option<Problem>)
    requires i < |text| && 0 < n && i + n <= |text| && TokenAt(c, text, i, i + n, kind)
    requires problem == ProblemOf(c, kind, text[i..i + n])
    ensures ScanIs(c, text, i, Lexeme(kind, n, problem))
  {
    hide TokenAt, ProblemOf;
  }

  lemma ScanOfEscaped(c: Classes, s: string)
    requires s != "" && s[0] == '\\'
    ensures ScanOne(c, s) == Lexeme(Identifier, 1 + Run(s[1..], EscapedChars(c)), None)
  {
  }

  lemma TokenOfEscaped(c: Classes, text: string, i: nat, j: nat)
    requires i < j <= |text| && text[i] == '\\'
    requires (forall k :: i < k < j ==> EscapedChars(c)(text[k])) && (j < |text| ==> !EscapedChars(c)(text[j]))
    ensures TokenAt(c, text, i, j, Identifier) && ProblemOf(c, Identifier, text[i..j]) == None
  {
  }

  lemma ScanOfWord(c: Classes, s: string)
    requires s != "" && s[0] != '\\' && IdentStart(c, s[0])
    ensures var n := 1 + Run(s[1..], IdentChars(c));
      ScanOne(c, s) == Lexeme(if s[..n] in Keywords() then Keyword else Identifier, n, None)
  {
    hide Keywords, Run;
  }

  lemma TokenOfWord(c: Classes, text: string, i: nat, j: nat, kind: Kind)
    requires i < j <= |text| && text[i] != '\\' && WordStart(c, text[i])
    requires (forall k :: i < k < j ==> IdentChars(c)(text[k])) && (j < |text| ==> !IdentChars(c)(text[j]))
    requires kind == if text[i..j] in Keywords() then Keyword else Identifier
    ensures TokenAt(c, text, i, j, kind) && ProblemOf(c, kind, text[i..j]) == None
  {
    hide Keywords;
  }

  lemma WordScan(c: Classes, text: string, i: nat)
    requires i < |text| && (text[i] == '\\' || WordStart(c, text[i]))
    ensures ScanIs(c, text, i, ScanOne(c, text[i..]))
  {
    hide *;
    RestOf(text, i);
    StartIsIdent(c, text[i]);
    var s := text[i..];
    if text[i] == '\\' {
      ScanOfEscaped(c, s);
      var n := Run(text[i + 1..], EscapedChars(c));
      RunSpelled(text, i, n, EscapedChars(c));
      TokenOfEscaped(c, text, i, i + 1 + n);
      Found(c, text, i, Identifier, 1 + n, None);
    } else {
      ScanOfWord(c, s);
      var n := Run(text[i + 1..], IdentChars(c));
      RunSpelled(text, i, n, IdentChars(c));
      var kind := if text[i..i + 1 + n] in Keywords() then Keyword else Identifier;
      TokenOfWord(c, text, i, i + 1 + n, kind);
      Found(c, text, i, kind, 1 + n, None);
    }
  }

  lemma ScanOfDigit(c: Classes, s: string)
    requires s != "" && c.digit(s[0]) && s[0] != '\\' && !IdentStart(c, s[0])
    ensures var n := 1 + Run(s[1..], NumberChars(c));
      ScanOne(c, s) == Lexeme(Number, n, if ValidNumber(c, s[..n]) then None else Some(MalformedNumber))
  {
    hide ValidNumber, Run;
  }

  lemma TokenOfDigit(c: Classes, text: string, i: nat, j: nat)
    requires i < j <= |text| && c.digit(text[i]) && text[i] != '\\' && !WordStart(c, text[i])
    requires (forall k :: i < k < j ==> NumberChars(c)(text[k])) && (j < |text| ==> !NumberChars(c)(text[j]))
    ensures TokenAt(c, text, i, j, Number)
  {
  }

  lemma ProblemOfDigit(c: Classes, v: string)
    requires ClassesOk(c) && v != "" && c.digit(v[0])
    ensures ProblemOf(c, Number, v) == if ValidNumber(c, v) then None else Some(MalformedNumber)
  {
    QuoteIsNoDigit(c);
    NumberSpelled(c, v);
    hide ValidNumber, IsBasedNumber, IsPlainNumber, ClassesOk;
  }

  lemma DigitScan(c: Classes, text: string, i: nat)
    requires ClassesOk(c) && i < |text| && c.digit(text[i]) && text[i] != '\\' && !WordStart(c, text[i])
    ensures ScanIs(c, text, i, ScanOne(c, text[i..]))
  {
    hide *;
    RestOf(text, i);
    StartIsIdent(c, text[i]);
    ScanOfDigit(c, text[i..]);
    var n := Run(text[i + 1..], NumberChars(c));
    RunSpelled(text, i, n, NumberChars(c));
    TokenOfDigit(c, text, i, i + 1 + n);
    var v := text[i..i + 1 + n];
    ProblemOfDigit(c, v);
    Found(c, text, i, Number, 1 + n, if ValidNumber(c, v) then None else Some(MalformedNumber));
  }

  predicate QuotesStartNothing(c: Classes) {
    !WordStart(c, '\'') && !c.digit('\'') && !WordStart(c, '"') && !c.digit('"')
  }

  lemma QuoteStartsNothing(c: Classes)
    requires ClassesOk(c)
    ensures QuotesStartNothing(c)
  {
    assert '\'' in SingleSymbols();
    assert '"' in "\\\"_$";
  }

  lemma ScanOfUnsized(c: Classes, s: string)
    requires QuotesStartNothing(c) && |s| > 1 && s[0] == '\'' && s[1] in BASES
    ensures ScanOne(c, s) == Lexeme(Number, 1 + Run(s[1..], BasedChars(c)), Some(UnsizedNumber))
  {
    StartIsIdent(c, '\'');
    BaseSpelled(s[1]);
    hide Run;
  }

  lemma TokenOfUnsized(c: Classes, text: string, i: nat, j: nat)
    requires QuotesStartNothing(c) && i + 1 < j <= |text| && text[i] == '\'' && text[i + 1] in BASES
    requires (forall k :: i < k < j ==> BasedChars(c)(text[k])) && (j < |text| ==> !BasedChars(c)(text[j]))
    ensures TokenAt(c, text, i, j, Number) && ProblemOf(c, Number, text[i..j]) == Some(UnsizedNumber)
  {
    hide Keywords, Operators;
  }

  /** The letter of a base goes on a number. */
  lemma BaseIsAlnum(c: Classes, x: char)
    requires ClassesOk(c) && x in BASES
    ensures BasedChars(c)(x)
  {
    BaseSpelled(x);
    hide BasedChar;
  }

  lemma UnsizedScan(c: Classes, text: string, i: nat)
    requires ClassesOk(c) && i + 1 < |text| && text[i] == '\'' && text[i + 1] in BASES
    ensures ScanIs(c, text, i, ScanOne(c, text[i..]))
  {
    hide *;
    RestOf(text, i);
    QuoteStartsNothing(c);
    ScanOfUnsized(c, text[i..]);
    BaseIsAlnum(c, text[i + 1]);
    var n := Run(text[i + 1..], BasedChars(c));
    RunSpelled(text, i, n, BasedChars(c));
    assert n > 0;
    TokenOfUnsized(c, text, i, i + 1 + n);
    Found(c, text, i, Number, 1 + n, Some(UnsizedNumber));
  }

  lemma ScanOfString(c: Classes, s: string)
    requires QuotesStartNothing(c) && s != "" && s[0] == '"'
    ensures var (n, closed) := StringRun(s[1..], false);
      ScanOne(c, s) == Lexeme(Kind.Text, 1 + n, if closed then None else Some(UnterminatedString))
  {
    StartIsIdent(c, '"');
    hide StringRun;
  }

  /** Where a string stops, said of its own text. */
  ghost predicate StopsAt(v: string, closed: bool) {
    && v != "" && (forall k :: 0 < k < |v| - 1 ==> !Ends(v, k))
    && (closed <==> Closed(v)) && (!closed && |v| >= 2 ==> !Ends(v, |v| - 1))
  }

  lemma StringStops(s: string)
    requires s != "" && s[0] == '"'
    ensures var (n, closed) := StringRun(s[1..], false);
      1 + n <= |s| && StopsAt(s[..1 + n], closed) && (!closed ==> 1 + n == |s|)
  {
    var (n, closed) := StringRun(s[1..], false);
    StringSpelled(s, 1);
    var v := s[..1 + n];
    forall k | 0 < k < |v| ensures Ends(v, k) <==> Ends(s, k) {
      SlashesInFront(v, s, k);
    }
    hide StringRun, Slashes;
  }

  lemma TokenOfString(c: Classes, text: string, i: nat, j: nat, closed: bool)
    requires QuotesStartNothing(c) && i < j <= |text| && text[i] == '"' && StopsAt(text[i..j], closed)
    requires !closed ==> j == |text|
    ensures TokenAt(c, text, i, j, Kind.Text)
    ensures ProblemOf(c, Kind.Text, text[i..j]) == if closed then None else Some(UnterminatedString)
  {
    hide Ends, Keywords, Operators;
  }

  lemma StringScan(c: Classes, text: string, i: nat)
    requires ClassesOk(c) && i < |text| && text[i] == '"'
    ensures ScanIs(c, text, i, ScanOne(c, text[i..]))
  {
    hide *;
    RestOf(text, i);
    QuoteStartsNothing(c);
    ScanOfString(c, text[i..]);
    StringStops(text[i..]);
    var (n, closed) := StringRun(text[i + 1..], false);
    TokenOfString(c, text, i, i + 1 + n, closed);
    Found(c, text, i, Kind.Text, 1 + n, if closed then None else Some(UnterminatedString));
  }

  lemma SinglesSpelled(x: char)
    ensures x in SingleSymbols() <==> x in SYMBOLS || x in SINGLE_OPERATORS
    ensures x in OperatorSymbols() <==> x in SINGLE_OPERATORS
  {
  }

  lemma SymbolsAreNoOperators()
    ensures SYMBOLS !! SINGLE_OPERATORS
  {
  }

  lemma TableIsLong(v: string)
    requires v in Operators()
    ensures |v| >= 2
  {
    var k :| 0 <= k < |Operators()| && Operators()[k] == v;
    OperatorsAreLong(k);
  }

  lemma ScanOfSymbol(c: Classes, s: string)
    requires s != "" && s[0] != '\\' && !IdentStart(c, s[0]) && !c.digit(s[0]) && s[0] != '"' && !StartsUnsized(s)
    ensures ScanOne(c, s) == ScanSymbol(s)
  {
    hide ScanSymbol;
  }

  lemma SymbolSpelled(s: string)
    requires s != ""
    ensures match ScanSymbol(s)
      case Lexeme(kind, n, problem) =>
        && problem == None && 0 < n <= |s| && (kind == Operator || kind == Symbol)
        && (kind == Operator <==> s[..n] in Operators() || (n == 1 && s[0] in SINGLE_OPERATORS))
        && (kind == Symbol <==> n == 1 && s[0] in SYMBOLS)
      case Unknown => s[0] !in SYMBOLS && s[0] !in SINGLE_OPERATORS
  {
    SinglesSpelled(s[0]);
    SymbolsAreNoOperators();
    var op := OperatorIndex(s, 0);
    hide SingleSymbols, OperatorSymbols;
    if op.Some? {
      OperatorsAreLong(op.value);
      hide Operators;
      assert s[..|Operators()[op.value]|] == Operators()[op.value];
    } else {
      hide Operators;
      if s[..1] in Operators() { TableIsLong(s[..1]); }
    }
  }

  lemma TokenOfSymbol(c: Classes, text: string, i: nat, kind: Kind, n: nat)
    requires i < |text| && 0 < n && i + n <= |text| && StartsSymbol(c, text, i)
    requires SymbolIs(text[i..i + n], text[i], kind)
    ensures TokenAt(c, text, i, i + n, kind) && ProblemOf(c, kind, text[i..i + n]) == None
  {
    hide Operators;
  }

  predicate StartsSymbol(c: Classes, text: string, i: nat)
    requires i < |text|
  {
    && text[i] != '\\' && !WordStart(c, text[i]) && !c.digit(text[i])
    && text[i] != '"' && !(text[i] == '\'' && i + 1 < |text| && text[i + 1] in BASES)
  }

  /** What a symbol scan finds in a text, kind by kind. */
  ghost predicate SymbolIs(v: string, x: char, kind: Kind) {
    && (kind == Operator || kind == Symbol)
    && (kind == Operator <==> v in Operators() || (|v| == 1 && x in SINGLE_OPERATORS))
    && (kind == Symbol <==> |v| == 1 && x in SYMBOLS)
  }

  lemma SymbolOf(s: string)
    requires s != ""
    ensures match ScanSymbol(s)
      case Lexeme(kind, n, problem) => problem == None && 0 < n <= |s| && SymbolIs(s[..n], s[0], kind)
      case Unknown => s[0] !in SYMBOLS && s[0] !in SINGLE_OPERATORS
  {
    SymbolSpelled(s);
    hide ScanSymbol, Operators;
  }

  lemma SymbolStarts(c: Classes, text: string, i: nat)
    requires i < |text| && StartsSymbol(c, text, i)
    ensures ScanOne(c, text[i..]) == ScanSymbol(text[i..])
  {
    RestOf(text, i);
    StartIsIdent(c, text[i]);
    if i + 1 < |text| { BaseSpelled(text[i + 1]); }
    ScanOfSymbol(c, text[i..]);
  }

  lemma SymbolScan(c: Classes, text: string, i: nat)
    requires i < |text| && StartsSymbol(c, text, i)
    ensures ScanIs(c, text, i, ScanOne(c, text[i..]))
  {
    hide *;
    RestOf(text, i);
    SymbolStarts(c, text, i);
    SymbolOf(text[i..]);
    var r := ScanSymbol(text[i..]);
    if r.Lexeme? {
      TokenOfSymbol(c, text, i, r.kind, r.length);
      Found(c, text, i, r.kind, r.length, None);
    } else {
      NothingFound(c, text, i);
    }
  }

  lemma NothingFound(c: Classes, text: string, i: nat)
    requires i < |text| && StartsSymbol(c, text, i) && text[i] !in SYMBOLS && text[i] !in SINGLE_OPERATORS
    ensures ScanIs(c, text, i, Unknown)
  {
  }

  /** Every scan finds what is said. */
  lemma ScanSpelled(c: Classes, text: string, i: nat)
    requires ClassesOk(c) && i < |text|
    ensures ScanIs(c, text, i, ScanOne(c, text[i..]))
  {
    hide ScanIs, ScanOne, ClassesOk;
    if text[i] == '\\' || WordStart(c, text[i]) {
      WordScan(c, text, i);
    } else if c.digit(text[i]) {
      DigitScan(c, text, i);
    } else if text[i] == '"' {
      StringScan(c, text, i);
    } else if text[i] == '\'' && i + 1 < |text| && text[i + 1] in BASES {
      UnsizedScan(c, text, i);
    } else {
      SymbolScan(c, text, i);
    }
  }

  // ----- all tokens of a line -----

  /** The token is the one scanned at its column. */
  ghost predicate IsScanned(c: Classes, src: SourceLine, t: Token) {
    && 1 <= t.column <= |src.text|
    && var s := src.text[t.column - 1..];
       && ScanOne(c, s).Lexeme? && ScanOne(c, s).kind == t.kind
       && ScanOne(c, s).length == |t.value| <= |s| && s[..|t.value|] == t.value
  }

  /** The report is that of the scan at its column. */
  ghost predicate IsReported(c: Classes, src: SourceLine, ts: seq<Token>, d: Diagnostic) {
    && d.file == src.file && d.line == src.line && 1 <= d.column <= |src.text|
    && match ScanOne(c, src.text[d.column - 1..])
       case Unknown => d.problem == UnknownCharacter
       case Lexeme(_, _, problem) => problem == Some(d.problem) && exists t :: t in ts && t.column == d.column
  }

  ghost predicate HasReport(c: Classes, src: SourceLine, ds: seq<Diagnostic>, t: Token)
    requires IsScanned(c, src, t)
  {
    var problem := ScanOne(c, src.text[t.column - 1..]).problem;
    problem.Some? ==> Diagnostic(problem.value, src.file, src.line, t.column) in ds
  }

  /** The tokens and reports from position i on are those scanned there. */
  ghost predicate Scanned(c: Classes, src: SourceLine, out: (seq<Token>, seq<Diagnostic>)) {
    && (forall t :: t in out.0 ==> IsScanned(c, src, t) && HasReport(c, src, out.1, t))
    && (forall d :: d in out.1 ==> IsReported(c, src, out.0, d))
  }

  lemma NothingScanned(c: Classes, src: SourceLine)
    ensures Scanned(c, src, ([], []))
  {
  }

  lemma OneUnknown(c: Classes, src: SourceLine, i: nat, tail: (seq<Token>, seq<Diagnostic>))
    requires i < |src.text| && ScanOne(c, src.text[i..]).Unknown? && Scanned(c, src, tail)
    ensures Scanned(c, src, (tail.0, Report(src, i + 1, Some(UnknownCharacter)) + tail.1))
  {
    hide ScanOne;
    var own := Diagnostic(UnknownCharacter, src.file, src.line, i + 1);
    assert Report(src, i + 1, Some(UnknownCharacter)) == [own];
    forall d | d in [own] + tail.1 ensures IsReported(c, src, tail.0, d) {
      if d in tail.1 { assert IsReported(c, src, tail.0, d); }
    }
    forall t | t in tail.0 ensures IsScanned(c, src, t) && HasReport(c, src, [own] + tail.1, t) {
      assert HasReport(c, src, tail.1, t);
    }
  }

  lemma OneScanned(c: Classes, src: SourceLine, i: nat, r: Scan, tail: (seq<Token>, seq<Diagnostic>))
    requires i < |src.text| && r == ScanOne(c, src.text[i..]) && r.Lexeme? && Scanned(c, src, tail)
    ensures var t := Token(r.kind, src.text[i..][..r.length], src.file, src.line, i + 1);
      Scanned(c, src, ([t] + tail.0, Report(src, i + 1, r.problem) + tail.1))
  {
    hide ScanOne;
    var s := src.text[i..];
    var t := Token(r.kind, s[..r.length], src.file, src.line, i + 1);
    var own := Report(src, i + 1, r.problem);
    var (ts, ds) := ([t] + tail.0, own + tail.1);
    assert IsScanned(c, src, t) && HasReport(c, src, ds, t);
    forall u | u in ts ensures IsScanned(c, src, u) && HasReport(c, src, ds, u) {
      if u != t { assert HasReport(c, src, tail.1, u); }
    }
    forall d | d in ds ensures IsReported(c, src, ts, d) {
      if d in tail.1 {
        assert IsReported(c, src, tail.0, d);
      } else {
        assert d == own[0] && t in ts;
      }
    }
  }

  lemma {:induction false} AllScanned(c: Classes, src: SourceLine, i: nat)
    requires i <= |src.text|
    ensures Scanned(c, src, LexFrom(c, src, src.text[i..], i + 1))
    decreases |src.text| - i
  {
    hide ScanOne, Scanned;
    if i == |src.text| {
      NothingScanned(c, src);
    } else {
      var s := src.text[i..];
      RestOf(src.text, i);
      AllScanned(c, src, i + 1);
      if !c.space(s[0]) {
        var r := ScanOne(c, s);
        if r.Unknown? {
          OneUnknown(c, src, i, LexFrom(c, src, s[1..], i + 2));
        } else {
          assert s[r.length..] == src.text[i + r.length..];
          AllScanned(c, src, i + r.length);
          OneScanned(c, src, i, r, LexFrom(c, src, s[r.length..], i + 1 + r.length));
        }
      }
    }
  }

  lemma ScannedIsSpelled(c: Classes, src: SourceLine, t: Token)
    requires ClassesOk(c) && IsScanned(c, src, t)
    ensures 1 <= t.column && t.column - 1 + |t.value| <= |src.text| && t.value != ""
    ensures var (i, j) := (t.column - 1, t.column - 1 + |t.value|);
      src.text[i..j] == t.value && TokenAt(c, src.text, i, j, t.kind)
    ensures var r := ScanOne(c, src.text[t.column - 1..]); r.Lexeme? && r.problem == ProblemOf(c, t.kind, t.value)
  {
    hide ScanOne, TokenAt, ProblemOf, ClassesOk;
    ScanSpelled(c, src.text, t.column - 1);
    RestOf(src.text, t.column - 1);
  }

  lemma ReportOfScan(c: Classes, src: SourceLine, out: (seq<Token>, seq<Diagnostic>), t: Token, p: Problem)
    requires Scanned(c, src, out) && t in out.0 && IsScanned(c, src, t)
    ensures Diagnostic(p, src.file, src.line, t.column) in out.1 <==>
      ScanOne(c, src.text[t.column - 1..]).problem == Some(p)
  {
    hide ScanOne;
    assert HasReport(c, src, out.1, t);
    var d := Diagnostic(p, src.file, src.line, t.column);
    if d in out.1 { assert IsReported(c, src, out.0, d); }
  }

  lemma LineScanned(c: Classes, src: SourceLine)
    ensures Scanned(c, src, LexLine(c, src))
  {
    assert src.text[0..] == src.text;
    hide LexFrom, Scanned;
    AllScanned(c, src, 0);
  }

  lemma TokenIsScanned(c: Classes, src: SourceLine, out: (seq<Token>, seq<Diagnostic>), t: Token)
    requires Scanned(c, src, out) && t in out.0
    ensures IsScanned(c, src, t)
  {
    hide ScanOne;
  }

  /** What every token of a line is, and that a report stands at it exactly when its
      text calls for one. */
  lemma KindsOfLine(c: Classes, src: SourceLine, t: Token)
    requires ClassesOk(c) && t in LexLine(c, src).0
    ensures 1 <= t.column && t.column - 1 + |t.value| <= |src.text| && t.value != ""
    ensures var (i, j) := (t.column - 1, t.column - 1 + |t.value|);
      src.text[i..j] == t.value && TokenAt(c, src.text, i, j, t.kind)
    ensures forall p :: Diagnostic(p, src.file, src.line, t.column) in LexLine(c, src).1 <==>
      ProblemOf(c, t.kind, t.value) == Some(p)
  {
    LineScanned(c, src);
    TokenIsScanned(c, src, LexLine(c, src), t);
    hide *;
    ScannedIsSpelled(c, src, t);
    forall p ensures Diagnostic(p, src.file, src.line, t.column) in LexLine(c, src).1 <==>
      ProblemOf(c, t.kind, t.value) == Some(p)
    {
      ReportOfScan(c, src, LexLine(c, src), t, p);
    }
  }

  lemma ReportSpelled(c: Classes, src: SourceLine, out: (seq<Token>, seq<Diagnostic>), d: Diagnostic)
    requires ClassesOk(c) && Scanned(c, src, out) && d in out.1 && forall t :: t in out.0 ==> t.column != d.column
    ensures d.problem == UnknownCharacter && 1 <= d.column <= |src.text| && UnknownChar(c, src.text[d.column - 1])
  {
    hide *;
    ReportOfNoToken(c, src, out, d);
    ScanSpelled(c, src.text, d.column - 1);
    UnknownFound(c, src.text, d.column - 1);
  }

  lemma ReportOfNoToken(c: Classes, src: SourceLine, out: (seq<Token>, seq<Diagnostic>), d: Diagnostic)
    requires Scanned(c, src, out) && d in out.1 && forall t :: t in out.0 ==> t.column != d.column
    ensures d.problem == UnknownCharacter && 1 <= d.column <= |src.text|
    ensures ScanOne(c, src.text[d.column - 1..]).Unknown?
  {
    hide ScanOne, IsScanned, HasReport;
    assert IsReported(c, src, out.0, d);
  }

  lemma UnknownFound(c: Classes, text: string, i: nat)
    requires i < |text| && ScanIs(c, text, i, Unknown)
    ensures UnknownChar(c, text[i])
  {
    hide UnknownChar;
  }

  /** A report that stands at no token is of a character that starts none. */
  lemma OtherReports(c: Classes, src: SourceLine, d: Diagnostic)
    requires ClassesOk(c) && d in LexLine(c, src).1 && forall t :: t in LexLine(c, src).0 ==> t.column != d.column
    ensures d.problem == UnknownCharacter && 1 <= d.column <= |src.text| && UnknownChar(c, src.text[d.column - 1])
  {
    LineScanned(c, src);
    hide *;
    ReportSpelled(c, src, LexLine(c, src), d);
  }
}
