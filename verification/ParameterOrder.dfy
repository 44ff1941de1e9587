/** The least solution of the parameter equations, and exactly when the passes reach
    it whatever the order of the declarations. */
module ParameterOrder {
  import opened Tokens
  import opened Parameters
  import opened ParameterPasses

  /** The value text means something over what is known. */
  predicate Meant(p: Parameter, known: Env) {
    p.value.Some? && Meaning(p.value.value, known).Some?
  }

  function MeantValue(p: Parameter, known: Env): int
    requires Meant(p, known)
  {
    Meaning(p.value.value, known).value
  }

  /** No parameter is named like a truth value. */
  ghost predicate Plain(ps: seq<Parameter>) {
    forall p :: p in ps ==> p.name !in TRUTHS
  }

  /** The map gives every parameter that means something over it that value. */
  ghost predicate Closed(ps: seq<Parameter>, v: Env) {
    forall p :: p in ps && Meant(p, v) ==> p.name in v && v[p.name] == MeantValue(p, v)
  }

  predicate Supports(p: Parameter, x: string, v: Env) {
    x in v && p.name == x && Meant(p, v) && v[x] == MeantValue(p, v)
  }

  /** Every value in the map is what its own declaration means. */
  ghost predicate Supported(ps: seq<Parameter>, v: Env) {
    forall x :: x in v ==> exists p :: p in ps && Supports(p, x, v)
  }

  /** The least map closed under the declarations, and nothing unsupported in it. */
  ghost predicate LeastSolution(ps: seq<Parameter>, v: Env) {
    Closed(ps, v) && Supported(ps, v) && forall w :: Closed(ps, w) ==> Below(v, w)
  }

  /** The same declarations in some order. */
  ghost predicate Reordered(ps: seq<Parameter>, qs: seq<Parameter>) {
    DistinctNames(qs) && forall p :: p in ps <==> p in qs
  }

  lemma LeastSolutionIsUnique(ps: seq<Parameter>, qs: seq<Parameter>, v: Env, w: Env)
    requires forall p :: p in ps <==> p in qs
    requires LeastSolution(ps, v) && LeastSolution(qs, w)
    ensures v == w
  {
    assert Closed(qs, v) && Closed(ps, w);
  }

  lemma LeastOfReordered(ps: seq<Parameter>, qs: seq<Parameter>, v: Env)
    requires Reordered(ps, qs) && LeastSolution(ps, v)
    ensures LeastSolution(qs, v) && (Plain(ps) <==> Plain(qs))
  {
    forall x | x in v ensures exists p :: p in qs && Supports(p, x, v) {
      var p :| p in ps && Supports(p, x, v);
      assert p in qs;
    }
    forall w | Closed(qs, w) ensures Below(v, w) {
      assert Closed(ps, w);
    }
  }

  // ----- what a value needs -----

  /** The parameter names a text reads. */
  function Refs(e: Const): set<string> {
    match e
    case Ref(name) => if name in TRUTHS then {} else {name}
    case Unary(_, operand) => Refs(operand)
    case Binary(_, left, right) => Refs(left) + Refs(right)
    case _ => {}
  }

  lemma {:induction false} MeantReads(e: Const, known: Env)
    requires Meaning(e, known).Some?
    ensures Refs(e) <= known.Keys
  {
    hide Occurs, Apply;
    match e
    case Unary(_, operand) => MeantReads(operand, known);
    case Binary(_, left, right) =>
      MeantReads(left, known);
      MeantReads(right, known);
    case _ =>
  }

  lemma {:induction false} MeaningDependsOnRefs(e: Const, a: Env, b: Env)
    requires forall x :: x in Refs(e) ==> (x in a <==> x in b) && (x in a ==> a[x] == b[x])
    ensures Meaning(e, a) == Meaning(e, b)
  {
    hide Occurs, Apply;
    match e
    case Unary(_, operand) => MeaningDependsOnRefs(operand, a, b);
    case Binary(_, left, right) =>
      MeaningDependsOnRefs(left, a, b);
      MeaningDependsOnRefs(right, a, b);
    case _ =>
  }

  /** The set holds, with every parameter, the names its value text reads. */
  ghost predicate HoldsRefs(ps: seq<Parameter>, names: set<string>) {
    forall p :: p in ps && p.name in names && p.value.Some? ==> Refs(p.value.value) <= names
  }

  /** The value of x is computed from that of y, directly or through others. */
  ghost predicate Needs(ps: seq<Parameter>, x: string, y: string) {
    forall names: set<string> :: x in names && HoldsRefs(ps, names) ==> y in names
  }

  predicate TrapFor(p: Parameter, q: Parameter) {
    q.value.Some? && p.name in Words(q.value.value)
  }

  /** Wherever the name of a parameter that has a value is a literal word of one that
      has, the first is computed from the second. */
  ghost predicate TrapsAreNeeded(ps: seq<Parameter>, v: Env) {
    forall p, q :: p in ps && q in ps && p.name in v && q.name in v && TrapFor(p, q) ==> Needs(ps, p.name, q.name)
  }

  // ----- the passes stay below the least solution -----

  /** What holds between any two steps of the passes. */
  ghost predicate Progress(ps: seq<Parameter>, known: Env, pending: seq<Parameter>) {
    && (forall p :: p in pending ==> p in ps && p.name !in known)
    && (forall p :: p in ps ==> p in pending || p.name in known)
    && Supported(ps, known) && HoldsRefs(ps, known.Keys)
    && (forall w :: Closed(ps, w) ==> Below(known, w))
    && known.Keys !! TRUTHS
  }

  lemma EvaluableIsMeant(p: Parameter, known: Env)
    requires known.Keys !! TRUTHS
    ensures Evaluable(p, known) <==> Meant(p, known) && Words(p.value.value) !! known.Keys
    ensures Evaluable(p, known) ==> Eval(p.value.value, known).value == MeantValue(p, known)
  {
    if p.value.Some? { EvalIsMeaning(p.value.value, known); }
    hide Eval, Meaning;
  }

  lemma MeantIsMonotone(p: Parameter, a: Env, b: Env)
    requires Below(a, b) && Meant(p, a)
    ensures Meant(p, b) && MeantValue(p, b) == MeantValue(p, a)
  {
    MeaningIsMonotone(p.value.value, a, b);
  }

  lemma SameName(ps: seq<Parameter>, p: Parameter, q: Parameter)
    requires DistinctNames(ps) && p in ps && q in ps && p.name == q.name
    ensures p == q
  {
    var i :| 0 <= i < |ps| && ps[i] == p;
    var j :| 0 <= j < |ps| && ps[j] == q;
    assert i == j;
  }

  lemma AddKeepsSupport(ps: seq<Parameter>, known: Env, p: Parameter)
    requires Supported(ps, known) && p in ps && p.name !in known && Meant(p, known)
    ensures Supported(ps, known[p.name := MeantValue(p, known)])
  {
    hide Meant, MeantValue;
    var more := known[p.name := MeantValue(p, known)];
    assert Below(known, more);
    forall x | x in more
      ensures exists q :: q in ps && Supports(q, x, more)
    {
      if x == p.name {
        MeantIsMonotone(p, known, more);
        assert Supports(p, x, more);
      } else {
        var q :| q in ps && Supports(q, x, known);
        MeantIsMonotone(q, known, more);
        assert Supports(q, x, more);
      }
    }
  }

  lemma AddHoldsRefs(ps: seq<Parameter>, known: Env, p: Parameter, x: int)
    requires DistinctNames(ps) && HoldsRefs(ps, known.Keys) && p in ps && Meant(p, known)
    ensures HoldsRefs(ps, known[p.name := x].Keys)
  {
    MeantReads(p.value.value, known);
    forall q | q in ps && q.name == p.name ensures q == p {
      SameName(ps, q, p);
    }
    hide Refs, DistinctNames;
  }

  /** One evaluated parameter, taken off what is pending. */
  lemma AddKeepsProgress(ps: seq<Parameter>, known: Env, pending: seq<Parameter>, p: Parameter, rest: seq<Parameter>)
    requires DistinctNames(ps) && Plain(ps) && Progress(ps, known, pending)
    requires p in pending && Evaluable(p, known)
    requires (forall q :: q in rest ==> q in pending && q.name != p.name)
    requires (forall q :: q in pending ==> q == p || q in rest)
    ensures Progress(ps, Learn(p, known), rest)
  {
    EvaluableIsMeant(p, known);
    hide Evaluable, Eval, Meant, MeantValue, DistinctNames, Supported, HoldsRefs;
    var x := MeantValue(p, known);
    var more := known[p.name := x];
    AddKeepsSupport(ps, known, p);
    AddHoldsRefs(ps, known, p, x);
    forall w | Closed(ps, w)
      ensures Below(more, w)
    {
      MeantIsMonotone(p, known, w);
    }
  }

  lemma {:induction false} PassKeepsProgress(ps: seq<Parameter>, known: Env, kept: seq<Parameter>,
      pending: seq<Parameter>)
    requires DistinctNames(ps) && Plain(ps) && DistinctNames(kept + pending) && Progress(ps, known, kept + pending)
    ensures var (left, after) := OnePass(pending, known);
      Progress(ps, after, kept + left) && DistinctNames(kept + left)
    decreases |pending|
  {
    hide Eval, Progress, Plain, DistinctNames;
    if pending == [] {
      assert kept + [] == kept;
    } else {
      var (p, rest) := (pending[0], pending[1..]);
      assert kept + pending == kept + ([p] + rest);
      if Evaluable(p, known) {
        NamesApart(kept, p, rest);
        AddKeepsProgress(ps, known, kept + pending, p, kept + rest);
        PassKeepsProgress(ps, Learn(p, known), kept, rest);
      } else {
        var (left, after) := OnePass(rest, known);
        assert kept + pending == (kept + [p]) + rest && kept + ([p] + left) == (kept + [p]) + left;
        PassKeepsProgress(ps, known, kept + [p], rest);
      }
    }
  }

  /** In a pass that takes nothing off, nothing pending could be evaluated. */
  lemma {:induction false} IdlePass(pending: seq<Parameter>, known: Env)
    requires |OnePass(pending, known).0| == |pending|
    ensures OnePass(pending, known) == (pending, known) && forall p :: p in pending ==> !Evaluable(p, known)
    decreases |pending|
  {
    hide Evaluable, Eval;
    if pending != [] {
      IdlePass(pending[1..], known);
      assert pending == [pending[0]] + pending[1..];
    }
  }

  lemma {:induction false} PassesEnd(ps: seq<Parameter>, known: Env, pending: seq<Parameter>)
    returns (left: seq<Parameter>)
    requires DistinctNames(ps) && Plain(ps) && DistinctNames(pending) && Progress(ps, known, pending)
    ensures Progress(ps, Passes(pending, known), left)
    ensures forall p :: p in left ==> !Evaluable(p, Passes(pending, known))
    decreases |pending|
  {
    hide Evaluable, Progress, Plain, DistinctNames, OnePass;
    var (rest, after) := OnePass(pending, known);
    assert [] + pending == pending && [] + rest == rest;
    PassKeepsProgress(ps, known, [], pending);
    if |rest| == |pending| {
      IdlePass(pending, known);
      left := pending;
    } else {
      left := PassesEnd(ps, after, rest);
    }
  }

  lemma ValuesEnd(ps: seq<Parameter>) returns (left: seq<Parameter>)
    requires DistinctNames(ps) && Plain(ps)
    ensures Progress(ps, Values(ps), left) && forall p :: p in left ==> !Evaluable(p, Values(ps))
  {
    assert Progress(ps, map[], ps);
    left := PassesEnd(ps, map[], ps);
  }

  /** Whatever the order, every value that is computed is the right one, and no
      parameter without a value could be evaluated with the others known. */
  lemma ValuesAreSound(ps: seq<Parameter>, v: Env)
    requires DistinctNames(ps) && Plain(ps) && LeastSolution(ps, v)
    ensures Below(Values(ps), v)
    ensures forall p :: p in ps && p.name !in Values(ps) ==> !Evaluable(p, Values(ps))
  {
    var left := ValuesEnd(ps);
    hide Evaluable, Values, Supported, HoldsRefs;
  }

  /** When nothing pending means anything the values are the least solution. */
  lemma ProgressEnds(ps: seq<Parameter>, known: Env, pending: seq<Parameter>)
    requires DistinctNames(ps) && Progress(ps, known, pending)
    requires forall p :: p in pending ==> !Meant(p, known)
    ensures LeastSolution(ps, known)
  {
    hide Meant, MeantValue, HoldsRefs;
    forall p | p in ps && Meant(p, known)
      ensures p.name in known && known[p.name] == MeantValue(p, known)
    {
      var q :| q in ps && Supports(q, p.name, known);
      SameName(ps, p, q);
    }
  }

  /** With a name that is a trap in a meaningful text, its own value is known too. */
  lemma TrapComesLater(ps: seq<Parameter>, v: Env, known: Env, x: string, q: Parameter)
    requires TrapsAreNeeded(ps, v) && Below(known, v) && Supported(ps, known) && HoldsRefs(ps, known.Keys)
    requires q in ps && q.name in v && q.value.Some? && x in Words(q.value.value) && x in known
    ensures q.name in known
  {
    hide Meant, MeantValue, HoldsRefs;
    var p :| p in ps && Supports(p, x, known);
    assert TrapFor(p, q);
    assert Needs(ps, p.name, q.name);
    assert p.name in known.Keys;
  }

  /** A pending parameter that means something is held up by no trap. */
  lemma NotTrapped(ps: seq<Parameter>, v: Env, known: Env, pending: seq<Parameter>, q: Parameter)
    requires LeastSolution(ps, v) && TrapsAreNeeded(ps, v) && Progress(ps, known, pending)
    requires q in pending && Meant(q, known)
    ensures Evaluable(q, known)
  {
    EvaluableIsMeant(q, known);
    assert Closed(ps, v) && Below(known, v);
    MeantIsMonotone(q, known, v);
    if x :| x in Words(q.value.value) && x in known {
      TrapComesLater(ps, v, known, x, q);
    }
  }

  lemma ValuesAreLeast(ps: seq<Parameter>, v: Env)
    requires DistinctNames(ps) && Plain(ps) && LeastSolution(ps, v) && TrapsAreNeeded(ps, v)
    ensures Values(ps) == v
  {
    var left := ValuesEnd(ps);
    hide Meant, Evaluable, Values, TrapsAreNeeded, Progress, DistinctNames, LeastSolution;
    forall p | p in left ensures !Meant(p, Values(ps)) {
      if Meant(p, Values(ps)) { NotTrapped(ps, v, Values(ps), left, p); }
    }
    ProgressEnds(ps, Values(ps), left);
    LeastSolutionIsUnique(ps, ps, Values(ps), v);
  }

  lemma NeedsOfReordered(ps: seq<Parameter>, qs: seq<Parameter>, v: Env)
    requires Reordered(ps, qs) && TrapsAreNeeded(ps, v)
    ensures TrapsAreNeeded(qs, v)
  {
    forall p, q | p in qs && q in qs && p.name in v && q.name in v && TrapFor(p, q)
      ensures Needs(qs, p.name, q.name)
    {
      assert Needs(ps, p.name, q.name);
      forall names: set<string> | p.name in names && HoldsRefs(qs, names) ensures q.name in names {
        assert HoldsRefs(ps, names);
      }
    }
  }

  // ----- an order in which a trap springs -----

  function NamesOf(ps: seq<Parameter>): set<string> {
    set p | p in ps :: p.name
  }

  function Restrict(v: Env, names: set<string>): Env {
    map x | x in v && x in names :: v[x]
  }

  /** The parameters of d stand in an order in which each can be computed from those
      before it, all with names in one set. */
  ghost predicate Derived(ps: seq<Parameter>, v: Env, names: set<string>, d: seq<Parameter>) {
    forall i :: 0 <= i < |d| ==>
      && d[i] in ps && d[i].name in names && d[i].name in v
      && d[i].name !in NamesOf(d[..i]) && Meant(d[i], Restrict(v, NamesOf(d[..i])))
  }

  /** What the set lacks of the derivation can be added to: else a smaller map would be closed. */
  lemma NextExists(ps: seq<Parameter>, v: Env, names: set<string>, done: set<string>, target: string)
    returns (p: Parameter)
    requires LeastSolution(ps, v) && HoldsRefs(ps, names) && done <= names * v.Keys
    requires target in names && target in v && target !in done
    ensures p in ps && p.name in names && p.name in v && p.name !in done && Meant(p, Restrict(v, done))
  {
    hide Supported;
    var w := Restrict(v, v.Keys - (names - done));
    assert target !in w && !Below(v, w);
    assert !Closed(ps, w);
    hide LeastSolution, Below;
    p :| p in ps && Meant(p, w) && !(p.name in w && w[p.name] == MeantValue(p, w));
    assert Below(w, v) by { RestrictIsBelow(v, v.Keys - (names - done)); }
    ClosedGives(ps, v, p, w);
    assert p.name in names && p.name !in done;
    MeaningDependsOnRefs(p.value.value, w, Restrict(v, done));
  }

  lemma RestrictIsBelow(v: Env, names: set<string>)
    ensures Below(Restrict(v, names), v)
  {
  }

  lemma ClosedGives(ps: seq<Parameter>, v: Env, p: Parameter, w: Env)
    requires LeastSolution(ps, v) && p in ps && Below(w, v) && Meant(p, w)
    ensures p.name in v && v[p.name] == MeantValue(p, w) && p.value.Some? && Refs(p.value.value) <= w.Keys
  {
    MeantIsMonotone(p, w, v);
    MeantReads(p.value.value, w);
    assert Closed(ps, v);
  }

  lemma NamesOfSnoc(d: seq<Parameter>, p: Parameter)
    ensures NamesOf(d + [p]) == NamesOf(d) + {p.name}
  {
  }

  lemma DerivedSnoc(ps: seq<Parameter>, v: Env, names: set<string>, d: seq<Parameter>, p: Parameter)
    requires Derived(ps, v, names, d) && p in ps && p.name in names && p.name in v
    requires p.name !in NamesOf(d) && Meant(p, Restrict(v, NamesOf(d)))
    ensures Derived(ps, v, names, d + [p])
  {
    hide Meant, Restrict;
    var longer := d + [p];
    forall i | 0 <= i < |longer|
      ensures longer[..i] == if i < |d| then d[..i] else d
    {
    }
  }

  lemma NamesOfDerived(ps: seq<Parameter>, v: Env, names: set<string>, d: seq<Parameter>)
    requires Derived(ps, v, names, d)
    ensures NamesOf(d) <= names * v.Keys
  {
    hide Meant;
  }

  lemma {:induction false} Derivation(ps: seq<Parameter>, v: Env, names: set<string>, d: seq<Parameter>, target: string)
    returns (r: seq<Parameter>)
    requires LeastSolution(ps, v) && HoldsRefs(ps, names) && Derived(ps, v, names, d)
    requires target in names && target in v
    ensures Derived(ps, v, names, r) && target in NamesOf(r)
    decreases names * v.Keys - NamesOf(d)
  {
    hide LeastSolution, HoldsRefs, Derived, Meant, Restrict, NamesOf;
    if target in NamesOf(d) { return d; }
    NamesOfDerived(ps, v, names, d);
    var p := NextExists(ps, v, names, NamesOf(d), target);
    DerivedSnoc(ps, v, names, d, p);
    NamesOfSnoc(d, p);
    assert p.name in names * v.Keys - NamesOf(d);
    r := Derivation(ps, v, names, d + [p], target);
  }

  /** A text is trapped: it cannot be evaluated now or with more known. */
  predicate Stuck(p: Parameter, known: Env) {
    p.value.Some? && !(Words(p.value.value) !! known.Keys)
  }

  lemma {:induction false} PassKeepsPlain(pending: seq<Parameter>, known: Env)
    requires Plain(pending) && known.Keys !! TRUTHS && DistinctNames(pending)
    ensures var (left, after) := OnePass(pending, known);
      && (forall q :: q in left ==> q in pending) && Plain(left) && DistinctNames(left)
      && known.Keys <= after.Keys && after.Keys !! TRUTHS
    decreases |pending|
  {
    hide Evaluable, Eval;
    if pending != [] {
      var (p, rest) := (pending[0], pending[1..]);
      assert p in pending;
      PassKeepsPlain(rest, Learn(p, known));
      assert forall q :: q in rest ==> q.name != p.name;
    }
  }

  lemma {:induction false} StuckInPass(pending: seq<Parameter>, known: Env, p: Parameter)
    requires Plain(pending) && known.Keys !! TRUTHS && DistinctNames(pending)
    requires p in pending && p.name !in known && Stuck(p, known)
    ensures var (left, after) := OnePass(pending, known);
      p in left && p.name !in after && Stuck(p, after)
    decreases |pending|
  {
    hide Evaluable, Eval;
    var (first, rest) := (pending[0], pending[1..]);
    assert first in pending;
    if first == p {
      EvaluableIsMeant(p, known);
      OthersStay(rest, known, p.name);
      PassKeepsPlain(rest, known);
    } else {
      assert p in rest && first.name != p.name;
      StuckInPass(rest, Learn(first, known), p);
    }
  }

  /** A pass gives values to pending names only. */
  lemma {:induction false} OthersStay(pending: seq<Parameter>, known: Env, name: string)
    requires name !in known && forall k :: 0 <= k < |pending| ==> pending[k].name != name
    ensures name !in OnePass(pending, known).1
    decreases |pending|
  {
    hide Evaluable, Eval;
    if pending != [] {
      var p := pending[0];
      OthersStay(pending[1..], Learn(p, known), name);
    }
  }

  lemma {:induction false} StuckInPasses(pending: seq<Parameter>, known: Env, p: Parameter)
    requires Plain(pending) && known.Keys !! TRUTHS && DistinctNames(pending)
    requires p in pending && p.name !in known && Stuck(p, known)
    ensures p.name !in Passes(pending, known)
    decreases |pending|
  {
    hide OnePass, Stuck, Plain, DistinctNames;
    var (left, after) := OnePass(pending, known);
    PassKeepsPlain(pending, known);
    StuckInPass(pending, known, p);
    if |left| != |pending| { StuckInPasses(left, after, p); }
  }

  /** The passes over a list whose first pass has come to the i-th parameter. */
  ghost predicate PassReaches(qs: seq<Parameter>, i: nat, known: Env) {
    && i <= |qs| && known.Keys !! TRUTHS
    && (exists kept :: Splits(qs, i, known, kept))
  }

  ghost predicate Splits(qs: seq<Parameter>, i: nat, known: Env, kept: seq<Parameter>)
    requires i <= |qs|
  {
    OnePass(qs, map[]) == (kept + OnePass(qs[i..], known).0, OnePass(qs[i..], known).1)
  }

  /** A parameter not yet tried, and trapped when the first pass has come so far, never gets a value. */
  lemma StuckFromHere(qs: seq<Parameter>, i: nat, known: Env, p: Parameter)
    requires Plain(qs) && DistinctNames(qs) && PassReaches(qs, i, known)
    requires p in qs[i..] && p.name !in known && Stuck(p, known)
    ensures p.name !in Values(qs)
  {
    hide Stuck;
    var kept :| Splits(qs, i, known, kept);
    SuffixIsPlain(qs, i);
    hide Plain, DistinctNames, OnePass;
    StuckInPass(qs[i..], known, p);
    PassKeepsPlain(qs, map[]);
    var (left, after) := OnePass(qs, map[]);
    assert p in left;
    if |left| != |qs| { StuckInPasses(left, after, p); }
  }

  lemma SuffixIsPlain(qs: seq<Parameter>, i: nat)
    requires i <= |qs| && Plain(qs) && DistinctNames(qs)
    ensures Plain(qs[i..]) && DistinctNames(qs[i..])
  {
  }

  lemma ReachesNext(qs: seq<Parameter>, i: nat, known: Env)
    requires i < |qs| && PassReaches(qs, i, known) && Evaluable(qs[i], known) && qs[i].name !in TRUTHS
    ensures PassReaches(qs, i + 1, Learn(qs[i], known))
  {
    var kept :| Splits(qs, i, known, kept);
    PassStep(qs, i, kept, known);
    hide Eval, OnePass;
    var more := Learn(qs[i], known);
    assert Splits(qs, i + 1, more, kept);
  }

  lemma RestrictSnoc(v: Env, d: seq<Parameter>, i: nat)
    requires i < |d| && d[i].name in v
    ensures Restrict(v, NamesOf(d[..i + 1])) == Restrict(v, NamesOf(d[..i]))[d[i].name := v[d[i].name]]
  {
    assert d[..i + 1] == d[..i] + [d[i]];
    NamesOfSnoc(d[..i], d[i]);
  }

  /** Along a derivation the first pass takes off one parameter after the other, or one
      of them is trapped and loses its value for good. */
  lemma {:induction false} AlongDerivation(ps: seq<Parameter>, v: Env, names: set<string>, d: seq<Parameter>,
      rest: seq<Parameter>, i: nat)
    requires LeastSolution(ps, v) && Derived(ps, v, names, d) && i <= |d|
    requires Plain(d + rest) && DistinctNames(d + rest) && PassReaches(d + rest, i, Restrict(v, NamesOf(d[..i])))
    ensures PassReaches(d + rest, |d|, Restrict(v, NamesOf(d))) || Values(d + rest) != v
    decreases |d| - i
  {
    hide Meant, MeantValue, Evaluable, Stuck, Values, PassReaches, Restrict, NamesOf, LeastSolution, Words;
    if i == |d| {
      assert d[..i] == d;
    } else {
      var (qs, known, p) := (d + rest, Restrict(v, NamesOf(d[..i])), d[i]);
      assert qs[i] == p && p in qs && qs[i..][0] == p;
      KnownHere(v, d, i, qs);
      if Stuck(p, known) {
        StuckFromHere(qs, i, known, p);
      } else {
        NotStuck(p, known);
        ClosedGives(ps, v, p, known);
        EvaluableIsMeant(p, known);
        ReachesNext(qs, i, known);
        RestrictSnoc(v, d, i);
        AlongDerivation(ps, v, names, d, rest, i + 1);
      }
    }
  }

  lemma KnownHere(v: Env, d: seq<Parameter>, i: nat, qs: seq<Parameter>)
    requires i < |d| <= |qs| && qs[..|d|] == d && Plain(qs) && d[i].name !in NamesOf(d[..i])
    ensures var known := Restrict(v, NamesOf(d[..i]));
      Below(known, v) && d[i].name !in known && known.Keys !! TRUTHS && d[i].name !in TRUTHS
  {
    assert forall k :: 0 <= k < |d| ==> d[k] == qs[k] && qs[k] in qs;
  }

  lemma NotStuck(p: Parameter, known: Env)
    requires Meant(p, known) && !Stuck(p, known)
    ensures p.value.Some? && Words(p.value.value) !! known.Keys
  {
  }

  function Without(ps: seq<Parameter>, names: set<string>): (r: seq<Parameter>)
    ensures forall p :: p in r <==> p in ps && p.name !in names
  {
    if ps == [] then []
    else
      assert forall p :: p in ps <==> p == ps[0] || p in ps[1..];
      if ps[0].name in names then Without(ps[1..], names) else [ps[0]] + Without(ps[1..], names)
  }

  lemma {:induction false} WithoutIsDistinct(ps: seq<Parameter>, names: set<string>)
    requires DistinctNames(ps)
    ensures DistinctNames(Without(ps, names))
  {
    if ps != [] {
      WithoutIsDistinct(ps[1..], names);
      var rest := Without(ps[1..], names);
      forall j | 0 <= j < |rest| ensures rest[j].name != ps[0].name {
        assert rest[j] in ps[1..];
      }
    }
  }

  lemma DerivedIsDistinct(ps: seq<Parameter>, v: Env, names: set<string>, d: seq<Parameter>)
    requires Derived(ps, v, names, d)
    ensures DistinctNames(d)
  {
    hide Meant, Restrict;
    forall i, j | 0 <= i < j < |d| ensures d[i].name != d[j].name {
      assert d[..j][i] == d[i] && d[i] in d[..j];
    }
  }

  lemma ApartIsDistinct(d: seq<Parameter>, rest: seq<Parameter>)
    requires DistinctNames(d) && DistinctNames(rest) && forall q :: q in rest ==> q.name !in NamesOf(d)
    ensures DistinctNames(d + rest)
  {
    forall i, j | 0 <= i < |d| && 0 <= j < |rest| ensures d[i].name != rest[j].name {
      assert d[i] in d && rest[j] in rest;
    }
  }

  lemma DerivedOrOther(ps: seq<Parameter>, d: seq<Parameter>, p: Parameter)
    requires DistinctNames(ps) && (forall q :: q in d ==> q in ps)
    ensures p in ps <==> p in d + Without(ps, NamesOf(d))
  {
    hide Without;
    if p in ps && p.name in NamesOf(d) {
      var q :| q in d && q.name == p.name;
      SameName(ps, p, q);
    }
  }

  /** The derivation first and the others after it is the same declarations in another order. */
  lemma DerivationFirst(ps: seq<Parameter>, v: Env, names: set<string>, d: seq<Parameter>)
    requires DistinctNames(ps) && Derived(ps, v, names, d)
    ensures Reordered(ps, d + Without(ps, NamesOf(d)))
  {
    WithoutIsDistinct(ps, NamesOf(d));
    DerivedIsDistinct(ps, v, names, d);
    ApartIsDistinct(d, Without(ps, NamesOf(d)));
    assert forall q :: q in d ==> q in ps;
    hide Meant, Restrict, Without, Derived, NamesOf, DistinctNames;
    forall p ensures p in ps <==> p in d + Without(ps, NamesOf(d)) {
      DerivedOrOther(ps, d, p);
    }
  }

  lemma StartsAtZero(v: Env, qs: seq<Parameter>)
    ensures PassReaches(qs, 0, Restrict(v, NamesOf([])))
  {
    assert Restrict(v, NamesOf([])) == map[] && qs[0..] == qs;
    assert [] + OnePass(qs, map[]).0 == OnePass(qs, map[]).0;
    assert Splits(qs, 0, map[], []);
  }

  /** A trap that is not needed springs when its parameter is declared early enough. */
  lemma TrapSprings(ps: seq<Parameter>, v: Env, p: Parameter, q: Parameter, names: set<string>)
    returns (qs: seq<Parameter>)
    requires DistinctNames(ps) && Plain(ps) && LeastSolution(ps, v)
    requires p in ps && q in ps && p.name in v && q.name in v && TrapFor(p, q)
    requires p.name in names && HoldsRefs(ps, names) && q.name !in names
    ensures Reordered(ps, qs) && Values(qs) != v
  {
    assert Derived(ps, v, names, []);
    hide LeastSolution, HoldsRefs, Meant, Derived, Plain;
    var d := Derivation(ps, v, names, [], p.name);
    var rest := Without(ps, NamesOf(d));
    qs := d + rest;
    DerivationFirst(ps, v, names, d);
    LeastOfReordered(ps, qs, v);
    NamesOfDerived(ps, v, names, d);
    StartsAtZero(v, qs);
    assert d[..0] == [];
    AlongDerivation(ps, v, names, d, rest, 0);
    if Values(qs) == v {
      hide PassReaches, DistinctNames, Values, Without;
      assert q in qs[|d|..];
      StuckFromHere(qs, |d|, Restrict(v, NamesOf(d)), q);
    }
  }

  /** In every order of the declarations the passes reach the least solution, exactly
      when every trap among the parameters with a value is needed. */
  lemma OrderIsFreeIff(ps: seq<Parameter>, v: Env)
    requires DistinctNames(ps) && Plain(ps) && LeastSolution(ps, v)
    ensures (forall qs :: Reordered(ps, qs) ==> Values(qs) == v) <==> TrapsAreNeeded(ps, v)
  {
    hide DistinctNames, Plain, LeastSolution, Values, HoldsRefs;
    if TrapsAreNeeded(ps, v) {
      forall qs | Reordered(ps, qs) ensures Values(qs) == v {
        LeastOfReordered(ps, qs, v);
        NeedsOfReordered(ps, qs, v);
        hide TrapsAreNeeded;
        ReorderedIsDistinct(ps, qs);
        ValuesAreLeast(qs, v);
      }
    } else {
      var p, q :| p in ps && q in ps && p.name in v && q.name in v && TrapFor(p, q) && !Needs(ps, p.name, q.name);
      var names: set<string> :| p.name in names && HoldsRefs(ps, names) && q.name !in names;
      var qs := TrapSprings(ps, v, p, q, names);
    }
  }

  lemma ReorderedIsDistinct(ps: seq<Parameter>, qs: seq<Parameter>)
    requires Reordered(ps, qs)
    ensures DistinctNames(qs)
  {
  }

  // ----- the least solution exists -----

  function Untrapped(e: Const): Const {
    match e
    case Sized(_, n) => Const.Number(n)
    case Ref(name) => if name == "True" then Const.Number(1) else if name == "False" then Const.Number(0) else e
    case Unary(op, operand) => Unary(op, Untrapped(operand))
    case Binary(op, left, right) => Binary(op, Untrapped(left), Untrapped(right))
    case _ => e
  }

  lemma {:induction false} UntrappedMeansTheSame(e: Const, known: Env)
    ensures Meaning(Untrapped(e), known) == Meaning(e, known) && Words(Untrapped(e)) == {}
  {
    hide Occurs, Apply;
    match e
    case Unary(_, operand) => UntrappedMeansTheSame(operand, known);
    case Binary(_, left, right) =>
      UntrappedMeansTheSame(left, known);
      UntrappedMeansTheSame(right, known);
    case _ =>
  }

  function UntrappedParameter(p: Parameter): Parameter {
    Parameter(p.name, if p.value.None? then None else Some(Untrapped(p.value.value)))
  }

  lemma UntrappedMeant(p: Parameter, known: Env)
    ensures Meant(UntrappedParameter(p), known) <==> Meant(p, known)
    ensures Meant(p, known) ==> MeantValue(UntrappedParameter(p), known) == MeantValue(p, known)
    ensures UntrappedParameter(p).value.Some? ==> Words(UntrappedParameter(p).value.value) == {}
  {
    if p.value.Some? { UntrappedMeansTheSame(p.value.value, known); }
  }

  ghost predicate AllUntrapped(ps: seq<Parameter>, qs: seq<Parameter>) {
    |qs| == |ps| && forall i :: 0 <= i < |ps| ==> qs[i] == UntrappedParameter(ps[i])
  }

  lemma SameSolutions(ps: seq<Parameter>, qs: seq<Parameter>, v: Env)
    requires AllUntrapped(ps, qs) && LeastSolution(qs, v)
    ensures LeastSolution(ps, v)
  {
    hide Meant, MeantValue;
    ClosedAlike(ps, qs, v);
    forall x | x in v ensures exists p :: p in ps && Supports(p, x, v) {
      var q :| q in qs && Supports(q, x, v);
      var i :| 0 <= i < |qs| && qs[i] == q;
      UntrappedMeant(ps[i], v);
      assert Supports(ps[i], x, v);
    }
    forall w | Closed(ps, w) ensures Below(v, w) {
      ClosedAlike(ps, qs, w);
    }
  }

  lemma ClosedAlike(ps: seq<Parameter>, qs: seq<Parameter>, w: Env)
    requires AllUntrapped(ps, qs)
    ensures Closed(ps, w) <==> Closed(qs, w)
  {
    hide Meant, MeantValue;
    forall i | 0 <= i < |ps|
      ensures qs[i].name == ps[i].name && (Meant(qs[i], w) <==> Meant(ps[i], w))
      ensures Meant(ps[i], w) ==> MeantValue(qs[i], w) == MeantValue(ps[i], w)
    {
      UntrappedMeant(ps[i], w);
    }
    if Closed(ps, w) {
      forall q | q in qs && Meant(q, w) ensures q.name in w && w[q.name] == MeantValue(q, w) {
        var i :| 0 <= i < |qs| && qs[i] == q;
        assert ps[i] in ps;
      }
    }
    if Closed(qs, w) {
      forall p | p in ps && Meant(p, w) ensures p.name in w && w[p.name] == MeantValue(p, w) {
        var i :| 0 <= i < |ps| && ps[i] == p;
        assert qs[i] in qs;
      }
    }
  }

  lemma LeastSolutionExists(ps: seq<Parameter>) returns (v: Env)
    requires DistinctNames(ps) && Plain(ps)
    ensures LeastSolution(ps, v)
  {
    var qs := seq(|ps|, i requires 0 <= i < |ps| => UntrappedParameter(ps[i]));
    assert forall q :: q in qs ==> exists p :: p in ps && q == UntrappedParameter(p);
    assert forall i :: 0 <= i < |ps| ==> UntrappedParameter(ps[i]) == qs[i];
    var left := ValuesEnd(qs);
    v := Values(qs);
    hide Values, Evaluable, DistinctNames, HoldsRefs, UntrappedParameter, Meant, MeantValue;
    forall q | q in left ensures !Meant(q, v) {
      var p :| p in ps && q == UntrappedParameter(p);
      UntrappedMeant(p, v);
      EvaluableIsMeant(q, v);
    }
    ProgressEnds(qs, v, left);
    SameSolutions(ps, qs, v);
  }

  // ----- two clashes -----

  lemma PassOfOne(q: Parameter, known: Env)
    ensures OnePass([q], known) == if Evaluable(q, known) then ([], Learn(q, known)) else ([q], known)
    ensures Passes([q], known) == Learn(q, known) && Passes([], known) == known
  {
    hide Eval;
    var one := [q];
    assert one[1..] == [];
    assert OnePass([], known) == ([], known) && OnePass([], Learn(q, known)) == ([], Learn(q, known));
    assert Passes([], known) == known && Passes([], Learn(q, known)) == Learn(q, known);
    if Evaluable(q, known) {
      assert OnePass(one, known) == ([], Learn(q, known));
      assert Passes(one, known) == Passes([], Learn(q, known));
    } else {
      assert one + [] == one;
    }
  }

  lemma TwoPasses(p: Parameter, q: Parameter)
    requires Evaluable(p, map[])
    ensures Values([p, q]) == Learn(q, Learn(p, map[]))
  {
    hide Eval, Evaluable, Learn;
    var (both, known) := ([p, q], Learn(p, map[]));
    assert both[1..] == [q];
    PassOfOne(q, known);
    assert OnePass(both, map[]) == OnePass([q], known);
    if Evaluable(q, known) { PassOfOne(q, Learn(q, known)); }
  }

  /** 8'hFF and a parameter named hFF: declared first, the parameter takes the literal's value away. */
  lemma LiteralWordClash()
    ensures var (a, h) := (Parameter("A", Some(Sized("hFF", 255))), Parameter("hFF", Some(Const.Number(1))));
      Values([a, h]) == map["A" := 255, "hFF" := 1] && Values([h, a]) == map["hFF" := 1]
  {
    TwoPasses(Parameter("A", Some(Sized("hFF", 255))), Parameter("hFF", Some(Const.Number(1))));
    TwoPasses(Parameter("hFF", Some(Const.Number(1))), Parameter("A", Some(Sized("hFF", 255))));
  }

  /** A parameter named True: declared after a text that reads it, it is read as 1 there. */
  lemma TruthClash(n: int)
    ensures var (p, t) := (Parameter("P", Some(Ref("True"))), Parameter("True", Some(Const.Number(n))));
      Values([p, t]) == map["P" := 1, "True" := n] && Values([t, p]) == map["P" := n, "True" := n]
  {
    TruthsOccur("True");
    hide Occurs;
    TwoPasses(Parameter("P", Some(Ref("True"))), Parameter("True", Some(Const.Number(n))));
    TwoPasses(Parameter("True", Some(Const.Number(n))), Parameter("P", Some(Ref("True"))));
  }
}
