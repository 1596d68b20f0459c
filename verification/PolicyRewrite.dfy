/**
 A normal form for policies: runs of always-matching terms become one term, nested
 sequences are flattened, and terms nothing can reach are dropped.
 */
module PolicyRewrite {
  import opened Types
  import opened Policies

  predicate IsTerminal(a: Action) {
    a.AcceptRoute? || a.RejectRoute?
  }

  function Flatten(a: Action): seq<Action>
    decreases a, 1
  {
    if a.ActionSequence? then FlattenAll(a.steps) else [a]
  }

  function FlattenAll(steps: seq<Action>): seq<Action>
    decreases steps, 0
  {
    if steps == [] then [] else Flatten(steps[0]) + FlattenAll(steps[1..])
  }

  predicate Flat(steps: seq<Action>) {
    forall i :: 0 <= i < |steps| ==> !steps[i].ActionSequence?
  }

  /** Nothing runs after the first Accept or Reject. */
  function Cut(steps: seq<Action>): seq<Action> {
    if steps == [] then []
    else if IsTerminal(steps[0]) then [steps[0]]
    else [steps[0]] + Cut(steps[1..])
  }

  predicate Decides(steps: seq<Action>) {
    exists i :: 0 <= i < |steps| && IsTerminal(steps[i])
  }

  function Simplify(a: Action): seq<Action> {
    Cut(Flatten(a))
  }

  function Optimize(terms: seq<Term>): seq<Term> {
    if terms == [] then []
    else
      var steps := Simplify(terms[0].action);
      var rest := Optimize(terms[1..]);
      if !terms[0].condition.AnyCondition? then [Term(terms[0].condition, ActionSequence(steps))] + rest
      else if Decides(steps) then [Term(AnyCondition, ActionSequence(steps))]
      else if rest != [] && rest[0].condition.AnyCondition? && rest[0].action.ActionSequence?
      then [Term(AnyCondition, ActionSequence(steps + rest[0].action.steps))] + rest[1..]
      else [Term(AnyCondition, ActionSequence(steps))] + rest
  }

  // ---------- sequences of actions ----------

  lemma {:induction false} StepsAppend(xs: seq<Action>, ys: seq<Action>, r: Route)
    ensures ApplySteps(xs + ys, r)
         == if ApplySteps(xs, r).0 != Next then ApplySteps(xs, r)
            else ApplySteps(ys, ApplySteps(xs, r).1)
    decreases xs
  {
    if xs == [] {
      assert xs + ys == ys;
    } else {
      assert (xs + ys)[0] == xs[0] && (xs + ys)[1..] == xs[1..] + ys;
      StepsAppend(xs[1..], ys, Apply(xs[0], r).1);
    }
  }

  lemma {:induction false} FlattenSound(a: Action, r: Route)
    ensures ApplySteps(Flatten(a), r) == Apply(a, r)
    ensures Flat(Flatten(a))
    decreases a, 1
  {
    if a.ActionSequence? {
      FlattenAllSound(a.steps, r);
    } else {
      assert [a][1..] == [];
      assert ApplySteps([a], r) == Apply(a, r);
    }
  }

  lemma {:induction false} FlattenAllSound(steps: seq<Action>, r: Route)
    ensures ApplySteps(FlattenAll(steps), r) == ApplySteps(steps, r)
    ensures Flat(FlattenAll(steps))
    decreases steps, 0
  {
    if steps != [] {
      FlattenSound(steps[0], r);
      StepsAppend(Flatten(steps[0]), FlattenAll(steps[1..]), r);
      FlattenAllSound(steps[1..], Apply(steps[0], r).1);
    }
  }

  /** On a flat sequence the verdict does not depend on the route. */
  lemma {:induction false} CutSound(steps: seq<Action>, r: Route)
    requires Flat(steps)
    ensures ApplySteps(Cut(steps), r) == ApplySteps(steps, r)
    ensures Flat(Cut(steps)) && (Decides(Cut(steps)) <==> Decides(steps))
    ensures ApplySteps(steps, r).0 != Next <==> Decides(steps)
    decreases steps
  {
    if steps != [] {
      if IsTerminal(steps[0]) {
        assert Cut(steps)[0] == steps[0];
      } else {
        var r' := Apply(steps[0], r).1;
        CutSound(steps[1..], r');
        assert Cut(steps)[1..] == Cut(steps[1..]);
        DecidesTail(steps);
        DecidesTail(Cut(steps));
      }
    }
  }

  lemma DecidesTail(steps: seq<Action>)
    requires steps != [] && !IsTerminal(steps[0])
    ensures Decides(steps) <==> Decides(steps[1..])
  {
    if Decides(steps) {
      var i :| 0 <= i < |steps| && IsTerminal(steps[i]);
      assert IsTerminal(steps[1..][i - 1]);
    }
    if Decides(steps[1..]) {
      var i :| 0 <= i < |steps[1..]| && IsTerminal(steps[1..][i]);
      assert IsTerminal(steps[i + 1]);
    }
  }

  lemma SimplifySound(a: Action, r: Route)
    ensures ApplySteps(Simplify(a), r) == Apply(a, r)
    ensures Flat(Simplify(a))
    ensures Apply(a, r).0 != Next <==> Decides(Simplify(a))
  {
    FlattenSound(a, r);
    CutSound(Flatten(a), r);
  }

  // ---------- the theorem ----------

  /** The optimized policy gives every route the same verdict and the same rewriting. */
  lemma {:induction false} OptimizePreservesMeaning(terms: seq<Term>, r: Route, default: DefaultAction)
    ensures EvalTerms(Optimize(terms), r, default) == EvalTerms(terms, r, default)
    decreases terms
  {
    if terms != [] {
      var t, out := terms[0], Optimize(terms);
      var steps, rest := Simplify(t.action), Optimize(terms[1..]);
      SimplifySound(t.action, r);
      OptimizePreservesMeaning(terms[1..], r, default);
      var r' := Apply(t.action, r).1;
      OptimizePreservesMeaning(terms[1..], r', default);
      if t.condition.AnyCondition? && !Decides(steps)
         && rest != [] && rest[0].condition.AnyCondition? && rest[0].action.ActionSequence? {
        StepsAppend(steps, rest[0].action.steps, r);
        assert out[1..] == rest[1..];
      } else if t.condition.AnyCondition? && Decides(steps) {
        assert out[1..] == [];
      } else {
        assert out[1..] == rest;
      }
    }
  }

  /**
   The result is in normal form: actions are flat, no two neighbouring terms always
   match, and an always-matching term that decides is the last one.
   */
  ghost predicate Normal(terms: seq<Term>) {
    && (forall i :: 0 <= i < |terms| ==> terms[i].action.ActionSequence? && Flat(terms[i].action.steps))
    && (forall i :: 0 <= i < |terms| - 1 && terms[i].condition.AnyCondition? ==>
          !terms[i + 1].condition.AnyCondition? && !Decides(terms[i].action.steps))
  }

  lemma {:induction false} OptimizeIsNormal(terms: seq<Term>)
    ensures Normal(Optimize(terms)) && |Optimize(terms)| <= |terms|
    decreases terms
  {
    if terms != [] {
      var r: Route := *;
      SimplifySound(terms[0].action, r);
      OptimizeIsNormal(terms[1..]);
      var steps, rest, out := Simplify(terms[0].action), Optimize(terms[1..]), Optimize(terms);
      if rest != [] && terms[0].condition.AnyCondition? && rest[0].condition.AnyCondition? && !Decides(steps) {
        var merged := steps + rest[0].action.steps;
        assert out == [Term(AnyCondition, ActionSequence(merged))] + rest[1..];
        if Decides(merged) {
          var i :| 0 <= i < |merged| && IsTerminal(merged[i]);
          assert i >= |steps| && IsTerminal(rest[0].action.steps[i - |steps|]);
        }
        forall i | 0 <= i < |out| - 1 && out[i].condition.AnyCondition?
          ensures !out[i + 1].condition.AnyCondition? && !Decides(out[i].action.steps)
        {
          assert out[i + 1] == rest[i + 1] && rest[i].condition.AnyCondition?;
          assert !Decides(rest[i].action.steps);
        }
      }
    }
  }

  /** Evaluation always ends in Accept or Reject. */
  lemma {:induction false} EvaluateDecides(terms: seq<Term>, r: Route, default: DefaultAction)
    ensures EvalTerms(terms, r, default).0 != Next
    decreases terms
  {
    if terms != [] {
      EvaluateDecides(terms[1..], r, default);
      EvaluateDecides(terms[1..], Apply(terms[0].action, r).1, default);
    }
  }
}
