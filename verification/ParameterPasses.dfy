/** The repeated passes over pending parameters: what they compute, and exactly when
    the order of the declarations does not matter. */
module ParameterPasses {
  import opened Tokens
  import opened Parameters

  /** A declared parameter; one without a value text is never evaluated. */
  datatype Parameter = Parameter(name: string, value: Option<Const>)

  ghost predicate DistinctNames(ps: seq<Parameter>) {
    forall i, j :: 0 <= i < j < |ps| ==> ps[i].name != ps[j].name
  }

  predicate Evaluable(p: Parameter, known: Env) {
    p.value.Some? && Eval(p.value.value, known).Some?
  }

  /** What is known after a parameter was tried. */
  function Learn(p: Parameter, known: Env): Env {
    if Evaluable(p, known) then known[p.name := Eval(p.value.value, known).value] else known
  }

  /** One pass: what stays pending, and the values after it. */
  function OnePass(ps: seq<Parameter>, known: Env): (r: (seq<Parameter>, Env))
    ensures |r.0| <= |ps|
    decreases |ps|
  {
    if ps == [] then ([], known)
    else
      var p := ps[0];
      if Evaluable(p, known) then OnePass(ps[1..], Learn(p, known))
      else
        var (left, after) := OnePass(ps[1..], known);
        ([p] + left, after)
  }

  /** Passes until one changes nothing. */
  function Passes(ps: seq<Parameter>, known: Env): Env
    decreases |ps|
  {
    var (left, after) := OnePass(ps, known);
    if |left| == |ps| then after else Passes(left, after)
  }

  function Values(ps: seq<Parameter>): Env {
    Passes(ps, map[])
  }

  // ----- the loop -----

  function Remove(ps: seq<Parameter>, name: string): seq<Parameter> {
    if ps == [] then []
    else if ps[0].name == name then Remove(ps[1..], name)
    else [ps[0]] + Remove(ps[1..], name)
  }

  lemma {:induction false} RemoveAbsent(ps: seq<Parameter>, name: string)
    requires forall k :: 0 <= k < |ps| ==> ps[k].name != name
    ensures Remove(ps, name) == ps
  {
    if ps != [] { RemoveAbsent(ps[1..], name); }
  }

  lemma {:induction false} RemoveOnly(kept: seq<Parameter>, p: Parameter, rest: seq<Parameter>)
    requires forall k :: 0 <= k < |kept| ==> kept[k].name != p.name
    requires forall k :: 0 <= k < |rest| ==> rest[k].name != p.name
    ensures Remove(kept + ([p] + rest), p.name) == kept + rest
    decreases |kept|
  {
    if kept == [] {
      assert kept + ([p] + rest) == [p] + rest && ([p] + rest)[1..] == rest && kept + rest == rest;
      RemoveAbsent(rest, p.name);
    } else {
      assert (kept + ([p] + rest))[1..] == kept[1..] + ([p] + rest);
      RemoveOnly(kept[1..], p, rest);
      assert kept + rest == [kept[0]] + (kept[1..] + rest);
    }
  }

  lemma NamesApart(kept: seq<Parameter>, p: Parameter, rest: seq<Parameter>)
    requires DistinctNames(kept + ([p] + rest))
    ensures forall k :: 0 <= k < |kept| ==> kept[k].name != p.name
    ensures forall k :: 0 <= k < |rest| ==> rest[k].name != p.name
    ensures DistinctNames(kept + rest)
  {
    var (all, fewer, n) := (kept + ([p] + rest), kept + rest, |kept|);
    assert all[n] == p;
    assert forall k :: 0 <= k < n ==> all[k] == kept[k] == fewer[k];
    assert forall k :: 0 <= k < |rest| ==> all[n + 1 + k] == rest[k];
    assert forall k :: n <= k < |fewer| ==> fewer[k] == all[k + 1];
  }

  /** The rest of a pass, with what it has left pending so far in front. */
  lemma PassStep(snapshot: seq<Parameter>, i: nat, kept: seq<Parameter>, known: Env)
    requires i < |snapshot|
    ensures var (left, after) := OnePass(snapshot[i..], known);
      if Evaluable(snapshot[i], known) then
        (left, after) == OnePass(snapshot[i + 1..], Learn(snapshot[i], known))
      else
        var (left', after') := OnePass(snapshot[i + 1..], known);
        after == after' && kept + left == (kept + [snapshot[i]]) + left'
  {
    hide Evaluable;
    assert snapshot[i..][1..] == snapshot[i + 1..];
  }

  lemma PassEnd(snapshot: seq<Parameter>, known: Env)
    ensures OnePass(snapshot[|snapshot|..], known) == ([], known)
  {
  }

  /** The passes as the code runs them: at most one more than there are parameters. */
  method ParameterValues(ps: seq<Parameter>) returns (values: Env, ghost passes: nat)
    requires DistinctNames(ps)
    ensures values == Values(ps)
    ensures passes <= |ps| + 1
  {
    hide OnePass, Eval, DistinctNames, Remove;
    values := map[];
    passes := 0;
    var pending := ps;
    for pass := 0 to |ps| + 1
      invariant passes == pass && DistinctNames(pending) && |pending| <= |ps| - pass
      invariant Passes(pending, values) == Values(ps)
    {
      var changed := false;
      var snapshot := pending;
      ghost var before, kept := values, [];
      passes := passes + 1;
      assert snapshot[0..] == snapshot && [] + snapshot == snapshot;
      ghost var (left, after) := OnePass(snapshot, before);
      assert [] + left == left;
      for i := 0 to |snapshot|
        invariant DistinctNames(pending) && pending == kept + snapshot[i..]
        invariant kept + OnePass(snapshot[i..], values).0 == left && OnePass(snapshot[i..], values).1 == after
        invariant |kept| <= i && (changed <==> |kept| < i)
      {
        var p := snapshot[i];
        PassStep(snapshot, i, kept, values);
        assert snapshot[i..] == [p] + snapshot[i + 1..];
        assert kept + snapshot[i..] == (kept + [p]) + snapshot[i + 1..];
        if p.value.None? {
          kept := kept + [p];
          continue;
        }
        var value := Eval(p.value.value, values);
        if value.None? {
          kept := kept + [p];
          continue;
        }
        NamesApart(kept, p, snapshot[i + 1..]);
        RemoveOnly(kept, p, snapshot[i + 1..]);
        values := values[p.name := value.value];
        pending := Remove(pending, p.name);
        changed := true;
      }
      PassEnd(snapshot, values);
      assert pending == kept == left && values == after;
      if !changed {
        return;
      }
    }
    assert false;
  }
}
