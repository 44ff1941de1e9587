/** Values of module parameters. A value text is evaluated by replacing the names
    known so far in it, word by word, and repeated passes try the pending ones. */
module Parameters {
  import opened Tokens
  import Literals

  datatype UnaryOp = Plus | Minus | Invert

  datatype BinaryOp = Add | Sub | Mul | FloorDiv | Mod | ShiftLeft | ShiftRight | Or | And | Xor

  /** A constant expression. A sized literal such as 8'hFF holds, after its quote, a
      word that is replaced like any other if it is a known name; Unsupported stands
      for text the evaluator rejects. */
  datatype Const =
    | Number(n: int)
    | Sized(word: string, value: int)
    | Ref(name: string)
    | Unary(uop: UnaryOp, operand: Const)
    | Binary(bop: BinaryOp, left: Const, right: Const)
    | Unsupported

  type Env = map<string, int>

  /** Division rounding down, for either sign of the divisor. */
  function FloorQuotient(a: int, b: int): (q: int)
    requires b != 0
  {
    if b > 0 then a / b else (-a) / (-b)
  }

  lemma FloorQuotientRoundsDown(a: int, b: int)
    requires b != 0
    ensures var r := a - FloorQuotient(a, b) * b; if b > 0 then 0 <= r < b else b < r <= 0
  {
    if b < 0 {
      var q := (-a) / (-b);
      assert -a == q * (-b) + (-a) % (-b);
      assert q * (-b) == -(q * b);
    }
  }

  function Magnitude(a: int): nat {
    if a >= 0 then a else -a - 1
  }

  /** Bitwise operators on integers of unbounded two's complement. */
  function Bitwise(op: BinaryOp, a: int, b: int): int
    decreases Magnitude(a) + Magnitude(b)
  {
    var bit := match op
      case Or => if a % 2 == 1 || b % 2 == 1 then 1 else 0
      case And => if a % 2 == 1 && b % 2 == 1 then 1 else 0
      case _ => if a % 2 != b % 2 then 1 else 0;
    if Magnitude(a) == 0 && Magnitude(b) == 0 then -bit
    else 2 * Bitwise(op, a / 2, b / 2) + bit
  }

  function Invoke(op: UnaryOp, a: int): int {
    match op case Plus => a case Minus => -a case Invert => -a - 1
  }

  function Apply(op: BinaryOp, a: int, b: int): Option<int> {
    match op
    case Add => Some(a + b)
    case Sub => Some(a - b)
    case Mul => Some(a * b)
    case FloorDiv => if b == 0 then None else Some(FloorQuotient(a, b))
    case Mod => if b == 0 then None else Some(a - FloorQuotient(a, b) * b)
    case ShiftLeft => if b < 0 then None else Some(a * Literals.Pow2(b))
    case ShiftRight => if b < 0 then None else Some(a / Literals.Pow2(b))
    case _ => Some(Bitwise(op, a, b))
  }

  // ----- replacing names -----

  /** The characters of names that count as parts of words: all but the dollar sign. */
  predicate WordChar(c: char) { c != '$' }

  predicate Boundary(x: string, i: nat)
    requires i <= |x|
  {
    (i > 0 && WordChar(x[i - 1])) != (i < |x| && WordChar(x[i]))
  }

  /** The name matches in x between two word boundaries. */
  predicate Occurs(name: string, x: string) {
    exists i | 0 <= i <= |x| - |name| ::
      name != "" && x[i..i + |name|] == name && Boundary(x, i) && Boundary(x, i + |name|)
  }

  lemma OccursInside(name: string, x: string)
    requires Occurs(name, x)
    ensures |name| <= |x| && (|name| == |x| ==> name == x)
  {
    if |name| == |x| {
      assert x[0..|x|] == x;
    }
  }

  /** In a name without dollar signs only the whole name matches. */
  lemma WholeWordOnly(name: string, x: string)
    requires '$' !in x && Occurs(name, x)
    ensures name == x
  {
    var i :| 0 <= i <= |x| - |name| && name != "" && x[i..i + |name|] == name && Boundary(x, i) &&
      Boundary(x, i + |name|);
    assert forall k :: 0 <= k < |x| ==> WordChar(x[k]);
    assert x[0..|x|] == x;
  }

  /** The replacement of one name. What a match inside a longer name leaves is no
      number, nor is a literal whose word was replaced. */
  function ReplaceName(e: Const, name: string, v: int): Const {
    match e
    case Ref(x) => if x == name && Occurs(name, x) then Const.Number(v) else if Occurs(name, x) then Unsupported else e
    case Sized(word, _) => if word == name then Unsupported else e
    case Unary(op, operand) => Unary(op, ReplaceName(operand, name, v))
    case Binary(op, left, right) => Binary(op, ReplaceName(left, name, v), ReplaceName(right, name, v))
    case _ => e
  }

  function ReplaceInTurn(e: Const, names: seq<string>, known: Env): Const
    requires forall x :: x in names ==> x in known
    decreases |names|
  {
    if names == [] then e else ReplaceInTurn(ReplaceName(e, names[0], known[names[0]]), names[1..], known)
  }

  /** The value of the text when nothing is left to replace. */
  function ValueOf(e: Const): Option<int> {
    match e
    case Number(n) => Some(n)
    case Sized(_, n) => Some(n)
    case Ref(name) => if name == "True" then Some(1) else if name == "False" then Some(0) else None
    case Unary(op, operand) => (var v := ValueOf(operand); if v.None? then None else Some(Invoke(op, v.value)))
    case Binary(op, left, right) =>
      var (a, b) := (ValueOf(left), ValueOf(right));
      if a.None? || b.None? then None else Apply(op, a.value, b.value)
    case Unsupported => None
  }

  /** All known names replaced at once. */
  function ReplaceAll(e: Const, known: Env): Const {
    match e
    case Ref(name) => if name in known && Occurs(name, name) then Const.Number(known[name]) else e
    case Sized(word, _) => if word in known then Unsupported else e
    case Unary(op, operand) => Unary(op, ReplaceAll(operand, known))
    case Binary(op, left, right) => Binary(op, ReplaceAll(left, known), ReplaceAll(right, known))
    case _ => e
  }

  /** The value over the parameters known so far. */
  function Eval(e: Const, known: Env): Option<int> {
    ValueOf(ReplaceAll(e, known))
  }

  /** Longer names stand before shorter ones. */
  ghost predicate LongestFirst(names: seq<string>) {
    forall i, j :: 0 <= i < j < |names| ==> |names[i]| >= |names[j]|
  }

  lemma {:induction false} NumberStays(e: Const, names: seq<string>, known: Env)
    requires (forall x :: x in names ==> x in known) && (e.Number? || e.Unsupported?)
    ensures ReplaceInTurn(e, names, known) == e
    decreases |names|
  {
    if names != [] { NumberStays(e, names[1..], known); }
  }

  lemma {:induction false} RefInTurn(x: string, names: seq<string>, known: Env)
    requires (forall y :: y in names ==> y in known) && LongestFirst(names)
    ensures ValueOf(ReplaceInTurn(Ref(x), names, known)) ==
      if x in names && Occurs(x, x) then Some(known[x]) else ValueOf(Ref(x))
    decreases |names|
  {
    hide Occurs;
    if names != [] {
      var (name, rest) := (names[0], names[1..]);
      var e := ReplaceName(Ref(x), name, known[name]);
      if Occurs(name, x) {
        NumberStays(e, rest, known);
        OccursInside(name, x);
        assert forall j :: 0 <= j < |rest| ==> rest[j] == names[j + 1] && |rest[j]| <= |name|;
        if x == "True" || x == "False" { WholeWordOnly(name, x); }
      } else {
        RefInTurn(x, rest, known);
      }
    }
  }

  lemma {:induction false} SizedInTurn(word: string, n: int, names: seq<string>, known: Env)
    requires forall y :: y in names ==> y in known
    ensures ReplaceInTurn(Sized(word, n), names, known) == if word in names then Unsupported else Sized(word, n)
    decreases |names|
  {
    if names != [] {
      if names[0] == word {
        NumberStays(Unsupported, names[1..], known);
      } else {
        SizedInTurn(word, n, names[1..], known);
      }
    }
  }

  lemma {:induction false} NodesInTurn(e: Const, names: seq<string>, known: Env)
    requires forall x :: x in names ==> x in known
    ensures e.Unary? ==> ReplaceInTurn(e, names, known) == Unary(e.uop, ReplaceInTurn(e.operand, names, known))
    ensures e.Binary? ==>
      ReplaceInTurn(e, names, known) ==
        Binary(e.bop, ReplaceInTurn(e.left, names, known), ReplaceInTurn(e.right, names, known))
    decreases |names|
  {
    if names != [] && (e.Unary? || e.Binary?) {
      NodesInTurn(ReplaceName(e, names[0], known[names[0]]), names[1..], known);
    }
  }

  /** Replacing the known names one after another, longest first, is reading them all at once. */
  lemma {:induction false} InTurnIsEval(e: Const, names: seq<string>, known: Env)
    requires (forall x :: x in names <==> x in known) && LongestFirst(names)
    ensures ValueOf(ReplaceInTurn(e, names, known)) == Eval(e, known)
    decreases e
  {
    hide ReplaceInTurn, Occurs, Apply;
    match e
    case Ref(x) => RefInTurn(x, names, known);
    case Sized(word, n) => SizedInTurn(word, n, names, known);
    case Unary(_, operand) =>
      NodesInTurn(e, names, known);
      InTurnIsEval(operand, names, known);
    case Binary(_, left, right) =>
      NodesInTurn(e, names, known);
      InTurnIsEval(left, names, known);
      InTurnIsEval(right, names, known);
    case _ => NumberStays(e, names, known);
  }

  /** Shortest first, a name inside a longer one would be replaced before it. */
  lemma ShortestFirstLoses(v: int, w: int)
    ensures var known: Env := map["a" := v, "a$b" := w];
      && ValueOf(ReplaceInTurn(Ref("a$b"), ["a", "a$b"], known)) == None
      && Eval(Ref("a$b"), known) == Some(w)
  {
    var known: Env := map["a" := v, "a$b" := w];
    var x := "a$b";
    assert x[0..1] == "a" && Boundary(x, 0) && Boundary(x, 1);
    assert Occurs("a", x);
    assert x[0..3] == x && Boundary(x, 3);
    assert Occurs(x, x);
    assert ReplaceName(Ref(x), "a", v) == Unsupported;
    var two := ["a", x];
    assert two[1..] == [x];
    NumberStays(Unsupported, [x], known);
  }

  // ----- what knowing more does to a value -----

  ghost predicate Below(a: Env, b: Env) {
    forall x :: x in a ==> x in b && a[x] == b[x]
  }

  /** The words after the quotes of literals. */
  function Words(e: Const): set<string> {
    match e
    case Sized(word, _) => {word}
    case Unary(_, operand) => Words(operand)
    case Binary(_, left, right) => Words(left) + Words(right)
    case _ => {}
  }

  const TRUTHS := {"True", "False"}

  /** The words that mean something without being known. */
  function Traps(e: Const): set<string> {
    match e
    case Sized(word, _) => {word}
    case Ref(name) => if name in TRUTHS then {name} else {}
    case Unary(_, operand) => Traps(operand)
    case Binary(_, left, right) => Traps(left) + Traps(right)
    case _ => {}
  }

  lemma TruthsOccur(name: string)
    requires name in TRUTHS
    ensures Occurs(name, name)
  {
    assert name[0..|name|] == name && Boundary(name, 0) && Boundary(name, |name|);
  }

  lemma {:induction false} TextStays(e: Const, a: Env, b: Env)
    requires Below(a, b) && ValueOf(ReplaceAll(e, a)).Some? && Traps(e) * b.Keys <= a.Keys
    ensures ReplaceAll(e, b) == ReplaceAll(e, a)
  {
    hide Occurs, Apply;
    match e
    case Unary(_, operand) => TextStays(operand, a, b);
    case Binary(_, left, right) =>
      TextStays(left, a, b);
      TextStays(right, a, b);
    case _ =>
  }

  lemma {:induction false} TextChanges(e: Const, x: string, a: Env, b: Env)
    requires x in Traps(e) && x in b && x !in a
    ensures ReplaceAll(e, b) != ReplaceAll(e, a)
  {
    hide Occurs;
    match e
    case Ref(name) => TruthsOccur(name);
    case Unary(_, operand) => TextChanges(operand, x, a, b);
    case Binary(_, left, right) => TextChanges(if x in Traps(left) then left else right, x, a, b);
    case _ =>
  }

  /** A text that has a value is read the same, however much more of some names is
      known, exactly when none of these names is a trap in it. */
  lemma TextKeptIff(e: Const, a: Env, names: set<string>)
    requires a.Keys <= names && Eval(e, a).Some?
    ensures (forall b: Env :: Below(a, b) && b.Keys <= names ==> ReplaceAll(e, b) == ReplaceAll(e, a)) <==>
      Traps(e) * names <= a.Keys
  {
    forall b: Env | Below(a, b) && b.Keys <= names && Traps(e) * names <= a.Keys
      ensures ReplaceAll(e, b) == ReplaceAll(e, a)
    {
      TextStays(e, a, b);
    }
    if x :| x in Traps(e) * names && x !in a {
      var b := a[x := 0];
      TextChanges(e, x, a, b);
      assert Below(a, b) && b.Keys <= names;
    }
  }

  /** The value when every word is read as what it is: a name as a parameter, and a
      literal as a literal. */
  function Meaning(e: Const, known: Env): Option<int> {
    match e
    case Number(n) => Some(n)
    case Sized(_, n) => Some(n)
    case Ref(name) =>
      if name == "True" then Some(1)
      else if name == "False" then Some(0)
      else if name in known && Occurs(name, name) then Some(known[name])
      else None
    case Unary(op, operand) => (var v := Meaning(operand, known); if v.None? then None else Some(Invoke(op, v.value)))
    case Binary(op, left, right) =>
      var (a, b) := (Meaning(left, known), Meaning(right, known));
      if a.None? || b.None? then None else Apply(op, a.value, b.value)
    case Unsupported => None
  }

  /** A value is lost exactly when a literal word is known. */
  lemma {:induction false} EvalIsMeaning(e: Const, known: Env)
    requires known.Keys !! TRUTHS
    ensures Eval(e, known) == if Words(e) !! known.Keys then Meaning(e, known) else None
  {
    hide Occurs, Apply;
    match e
    case Unary(_, operand) => EvalIsMeaning(operand, known);
    case Binary(_, left, right) =>
      EvalIsMeaning(left, known);
      EvalIsMeaning(right, known);
    case _ =>
  }

  /** As a meaning, a value is never changed or lost by knowing more. */
  lemma {:induction false} MeaningIsMonotone(e: Const, a: Env, b: Env)
    requires Below(a, b) && Meaning(e, a).Some?
    ensures Meaning(e, b) == Meaning(e, a)
  {
    hide Occurs, Apply;
    match e
    case Unary(_, operand) => MeaningIsMonotone(operand, a, b);
    case Binary(_, left, right) =>
      MeaningIsMonotone(left, a, b);
      MeaningIsMonotone(right, a, b);
    case _ =>
  }

  /** As the code evaluates it, a value is kept however much more of some names is
      known exactly when none of these names is a literal word of the text. */
  lemma ValueKeptIff(e: Const, a: Env, names: set<string>)
    requires a.Keys <= names && names !! TRUTHS && Eval(e, a).Some?
    ensures (forall b: Env :: Below(a, b) && b.Keys <= names ==> Eval(e, b) == Eval(e, a)) <==> Words(e) !! names
  {
    hide Eval;
    EvalIsMeaning(e, a);
    forall b: Env | Below(a, b) && b.Keys <= names && Words(e) !! names
      ensures Eval(e, b) == Eval(e, a)
    {
      EvalIsMeaning(e, b);
      MeaningIsMonotone(e, a, b);
    }
    if x :| x in Words(e) && x in names {
      var b := a[x := 0];
      EvalIsMeaning(e, b);
      assert Below(a, b) && b.Keys <= names && x in b.Keys;
    }
  }
}
