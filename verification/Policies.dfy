/**
 The policy engine: conditions, actions that rewrite a route, and term lists
 evaluated in order with fall-through.
 */
module Policies {
  import opened Types
  import opened AsPaths

  datatype Decision = Accept | Reject | Next

  datatype DefaultAction = DefaultAccept | DefaultReject

  function FromDefault(d: DefaultAction): Decision {
    if d.DefaultAccept? then Accept else Reject
  }

  /** `Test` stands for the conditions that read a route in some other way. */
  datatype Condition =
    | AnyCondition
    | OtcLeakCondition(sessionRole: Role, peerAsn: Asn)
    | OtcPropagationCondition
    | Test(holds: Route -> bool)

  predicate Matches(c: Condition, r: Route) {
    match c
    case AnyCondition => true
    case OtcLeakCondition(role, peerAsn) =>
      (match (role, r.Otc())
       case (Provider, Some(_)) => true
       case (RouteServer, Some(_)) => true
       case (Peer, Some(otc)) => otc != peerAsn
       case _ => false)
    case OtcPropagationCondition => r.Otc().Some?
    case Test(holds) => holds(r)
  }

  datatype Action =
    | AcceptRoute
    | RejectRoute
    | FallThrough
    | SetLocalPref(pref: Option<nat>)
    | SetMed(med: Option<nat>)
    | SetOrigin(origin: Origin)
    | SetNextHop(nextHop: Option<NextHop>)
    | PrependAsPath(asn: Asn, times: nat)
    | AddCommunity(community: Community)
    | RemoveCommunity(community: Community)
    | SetCommunities(communities: seq<Community>)
    | AddLargeCommunity(large: LargeCommunity)
    | RemoveLargeCommunity(large: LargeCommunity)
    | SetOtc(otc: Asn)
    | ActionSequence(steps: seq<Action>)

  function PrependTimes(p: AsPath, asn: Asn, times: nat): AsPath
    decreases times
  {
    if times == 0 then p else Prepend(PrependTimes(p, asn, times - 1), asn)
  }

  function Remove<T(==)>(xs: seq<T>, x: T): seq<T> {
    if xs == [] then [] else (if xs[0] == x then [] else [xs[0]]) + Remove(xs[1..], x)
  }

  /** The effect of one action that is not a sequence. */
  function ApplySimple(a: Action, r: Route): (Decision, Route)
    requires !a.ActionSequence?
  {
    match a
    case AcceptRoute => (Accept, r)
    case RejectRoute => (Reject, r)
    case FallThrough => (Next, r)
    case SetLocalPref(v) => (Next, r.(localPref := v))
    case SetMed(v) => (Next, r.(med := v))
    case SetOrigin(v) => (Next, r.(origin := v))
    case SetNextHop(v) => (Next, r.(nextHop := v))
    case PrependAsPath(asn, times) => (Next, r.(asPath := PrependTimes(r.asPath, asn, times)))
    case AddCommunity(c) => (Next, r.SetCommunities(r.Communities() + [c]))
    case RemoveCommunity(c) => (Next, r.SetCommunities(Remove(r.Communities(), c)))
    case SetCommunities(cs) => (Next, r.SetCommunities(cs))
    case AddLargeCommunity(c) =>
      (Next, r.SetLargeCommunities(r.RareOrDefault().largeCommunities + [c]))
    case RemoveLargeCommunity(c) =>
      (Next, r.SetLargeCommunities(Remove(r.RareOrDefault().largeCommunities, c)))
    case SetOtc(asn) => (Next, if r.Otc().None? then r.SetOtc(Some(asn)) else r)
  }

  function Apply(a: Action, r: Route): (Decision, Route)
    decreases a, 1
  {
    if a.ActionSequence? then ApplySteps(a.steps, r) else ApplySimple(a, r)
  }

  /** Steps run in order; the first Accept or Reject ends the sequence. */
  function ApplySteps(steps: seq<Action>, r: Route): (Decision, Route)
    decreases steps, 0
  {
    if steps == [] then (Next, r)
    else
      var (d, r') := Apply(steps[0], r);
      if d != Next then (d, r') else ApplySteps(steps[1..], r')
  }

  datatype Term = Term(condition: Condition, action: Action)

  function EvalTerms(terms: seq<Term>, r: Route, default: DefaultAction): (Decision, Route)
    decreases terms
  {
    if terms == [] then (FromDefault(default), r)
    else if !Matches(terms[0].condition, r) then EvalTerms(terms[1..], r, default)
    else
      var (d, r') := Apply(terms[0].action, r);
      if d != Next then (d, r') else EvalTerms(terms[1..], r', default)
  }

  // ---------- the engine ----------

  method RunPrepend(path: AsPath, asn: Asn, times: nat) returns (result: AsPath)
    ensures result == PrependTimes(path, asn, times)
  {
    result := path;
    for i := 0 to times
      invariant result == PrependTimes(path, asn, i)
    {
      result := Prepend(result, asn);
    }
  }

  /** Applies an action to a route the caller owns and hands it back rewritten. */
  method ApplyAction(a: Action, route: Route) returns (d: Decision, r: Route)
    ensures (d, r) == Apply(a, route)
    decreases a
  {
    if a.ActionSequence? {
      r := route;
      for i := 0 to |a.steps|
        invariant ApplySteps(a.steps[i..], r) == Apply(a, route)
      {
        assert a.steps[i..][1..] == a.steps[i + 1..];
        d, r := ApplyAction(a.steps[i], r);
        if d != Next {
          return;
        }
      }
      d := Next;
    } else if a.PrependAsPath? {
      var path := RunPrepend(route.asPath, a.asn, a.times);
      d, r := Next, route.(asPath := path);
    } else {
      var (d', r') := ApplySimple(a, route);
      d, r := d', r';
    }
  }

  class Policy {
    var terms: seq<Term>
    var default: DefaultAction

    constructor (d: DefaultAction)
      ensures terms == [] && default == d
    {
      terms, default := [], d;
    }

    method AddTerm(t: Term)
      modifies this`terms
      ensures terms == old(terms) + [t]
    {
      terms := terms + [t];
    }

    method SetDefault(d: DefaultAction)
      modifies this`default
      ensures default == d
    {
      default := d;
    }

    method Evaluate(route: Route) returns (d: Decision, r: Route)
      ensures (d, r) == EvalTerms(terms, route, default)
      ensures d != Next
    {
      r := route;
      for i := 0 to |terms|
        invariant EvalTerms(terms[i..], r, default) == EvalTerms(terms, route, default)
      {
        assert terms[i..][1..] == terms[i + 1..];
        if Matches(terms[i].condition, r) {
          d, r := ApplyAction(terms[i].action, r);
          if d != Next {
            return;
          }
        }
      }
      d := FromDefault(default);
    }
  }

  // ---------- what policies can and cannot do to a route ----------

  /** The action never writes ONLY_TO_CUSTOMER. */
  predicate KeepsOtc(a: Action)
    decreases a
  {
    match a
    case SetOtc(_) => false
    case ActionSequence(steps) => forall i :: 0 <= i < |steps| ==> KeepsOtc(steps[i])
    case _ => true
  }

  lemma {:induction false} ApplyKeepsOtc(a: Action, r: Route)
    requires KeepsOtc(a)
    ensures Apply(a, r).1.Otc() == r.Otc()
    decreases a, 1
  {
    if a.ActionSequence? { StepsKeepOtc(a.steps, r); }
  }

  lemma {:induction false} StepsKeepOtc(steps: seq<Action>, r: Route)
    requires forall i :: 0 <= i < |steps| ==> KeepsOtc(steps[i])
    ensures ApplySteps(steps, r).1.Otc() == r.Otc()
    decreases steps, 0
  {
    if steps != [] {
      ApplyKeepsOtc(steps[0], r);
      StepsKeepOtc(steps[1..], Apply(steps[0], r).1);
    }
  }

  lemma {:induction false} TermsKeepOtc(terms: seq<Term>, r: Route, default: DefaultAction)
    requires forall i :: 0 <= i < |terms| ==> KeepsOtc(terms[i].action)
    ensures EvalTerms(terms, r, default).1.Otc() == r.Otc()
    decreases terms
  {
    if terms != [] {
      if Matches(terms[0].condition, r) {
        ApplyKeepsOtc(terms[0].action, r);
        TermsKeepOtc(terms[1..], Apply(terms[0].action, r).1, default);
      } else {
        TermsKeepOtc(terms[1..], r, default);
      }
    }
  }

  lemma {:induction false} RemoveExactly<T>(xs: seq<T>, x: T)
    ensures multiset(Remove(xs, x)) == multiset(xs)[x := 0]
  {
    if xs != [] {
      RemoveExactly(xs[1..], x);
      assert xs == [xs[0]] + xs[1..];
    }
  }

  lemma {:induction false} RemoveLast<T>(xs: seq<T>, x: T)
    ensures Remove(xs + [x], x) == Remove(xs, x)
  {
    if xs == [] {
      assert xs + [x] == [x] && [x][1..] == [];
    } else {
      assert (xs + [x])[0] == xs[0] && (xs + [x])[1..] == xs[1..] + [x];
      RemoveLast(xs[1..], x);
    }
  }

  /** Nothing but the communities differs. */
  predicate OnlyCommunitiesDiffer(r: Route, r': Route) {
    r'.(rare := r.rare) == r && r'.RareOrDefault().(communities := r.Communities()) == r.RareOrDefault()
  }

  lemma SetCommunitiesEffect(r: Route, cs: seq<Community>) returns (r': Route)
    ensures r' == r.SetCommunities(cs) && r'.Communities() == cs && OnlyCommunitiesDiffer(r, r')
  {
    r' := r.SetCommunities(cs);
  }

  /** Adding appends one occurrence of the community. */
  lemma AddCommunityEffect(r: Route, c: Community) returns (added: Route)
    ensures Apply(AddCommunity(c), r) == (Next, added) && OnlyCommunitiesDiffer(r, added)
    ensures added.Communities() == r.Communities() + [c]
  {
    added := SetCommunitiesEffect(r, r.Communities() + [c]);
  }

  /** Removing drops every occurrence, and keeps the others as often as they were there. */
  lemma RemoveCommunityEffect(r: Route, c: Community) returns (removed: Route)
    ensures Apply(RemoveCommunity(c), r) == (Next, removed) && OnlyCommunitiesDiffer(r, removed)
    ensures removed.Communities() == Remove(r.Communities(), c)
    ensures multiset(removed.Communities()) == multiset(r.Communities())[c := 0]
  {
    removed := SetCommunitiesEffect(r, Remove(r.Communities(), c));
    RemoveExactly(r.Communities(), c);
  }

  /** Removing a community after adding it leaves what removing it alone leaves. */
  lemma RemoveUndoesAdd(r: Route, c: Community)
    ensures Apply(RemoveCommunity(c), Apply(AddCommunity(c), r).1).1.Communities()
         == Apply(RemoveCommunity(c), r).1.Communities()
  {
    var added := AddCommunityEffect(r, c);
    var both := RemoveCommunityEffect(added, c);
    var removed := RemoveCommunityEffect(r, c);
    RemoveLast(r.Communities(), c);
  }

  lemma {:induction false} PrependTimesEffect(p: AsPath, asn: Asn, times: nat)
    ensures PathLength(PrependTimes(p, asn, times)) == PathLength(p) + times
    ensures PathFrame(p, PrependTimes(p, asn, times))
    decreases times
  {
    if times > 0 {
      PrependTimesEffect(p, asn, times - 1);
      PrependEffect(PrependTimes(p, asn, times - 1), asn);
    }
  }

  /** The segment limit still holds, and no confed segment was added to a path without any. */
  ghost predicate PathFrame(p: AsPath, q: AsPath) {
    (SegmentsFit(p) ==> SegmentsFit(q)) && (NoConfed(p) ==> NoConfed(q))
  }

  /** No policy changes a route's prefix or source, or brings a confed segment back. */
  ghost predicate PolicyFrame(r: Route, r': Route) {
    && r'.nlri == r.nlri && r'.peerType == r.peerType && r'.stale == r.stale
    && PathFrame(r.asPath, r'.asPath)
  }

  lemma {:induction false} ApplyFrame(a: Action, r: Route)
    ensures PolicyFrame(r, Apply(a, r).1)
    decreases a, 1
  {
    if a.ActionSequence? { StepsFrame(a.steps, r); }
    else if a.PrependAsPath? { PrependTimesEffect(r.asPath, a.asn, a.times); }
  }

  lemma {:induction false} StepsFrame(steps: seq<Action>, r: Route)
    ensures PolicyFrame(r, ApplySteps(steps, r).1)
    decreases steps, 0
  {
    if steps != [] {
      ApplyFrame(steps[0], r);
      StepsFrame(steps[1..], Apply(steps[0], r).1);
    }
  }

  lemma {:induction false} EvalFrame(terms: seq<Term>, r: Route, default: DefaultAction)
    ensures PolicyFrame(r, EvalTerms(terms, r, default).1)
    decreases terms
  {
    if terms != [] {
      if Matches(terms[0].condition, r) {
        ApplyFrame(terms[0].action, r);
        EvalFrame(terms[1..], Apply(terms[0].action, r).1, default);
      } else {
        EvalFrame(terms[1..], r, default);
      }
    }
  }

  // ---------- no policy takes an AS off the path ----------

  lemma {:induction false} PrependTimesKeepsAsn(p: AsPath, asn: Asn, times: nat, x: Asn)
    requires Contains(p, x)
    ensures Contains(PrependTimes(p, asn, times), x)
    decreases times
  {
    if times > 0 {
      PrependTimesKeepsAsn(p, asn, times - 1, x);
      PrependContains(PrependTimes(p, asn, times - 1), asn, x);
    }
  }

  lemma {:induction false} ApplyKeepsAsn(a: Action, r: Route, x: Asn)
    requires Contains(r.asPath, x)
    ensures Contains(Apply(a, r).1.asPath, x)
    decreases a, 1
  {
    if a.ActionSequence? { StepsKeepAsn(a.steps, r, x); }
    else if a.PrependAsPath? { PrependTimesKeepsAsn(r.asPath, a.asn, a.times, x); }
  }

  lemma {:induction false} StepsKeepAsn(steps: seq<Action>, r: Route, x: Asn)
    requires Contains(r.asPath, x)
    ensures Contains(ApplySteps(steps, r).1.asPath, x)
    decreases steps, 0
  {
    if steps != [] {
      ApplyKeepsAsn(steps[0], r, x);
      StepsKeepAsn(steps[1..], Apply(steps[0], r).1, x);
    }
  }

  lemma {:induction false} EvalKeepsAsn(terms: seq<Term>, r: Route, default: DefaultAction, x: Asn)
    requires Contains(r.asPath, x)
    ensures Contains(EvalTerms(terms, r, default).1.asPath, x)
    decreases terms
  {
    if terms != [] {
      if Matches(terms[0].condition, r) {
        ApplyKeepsAsn(terms[0].action, r, x);
        EvalKeepsAsn(terms[1..], Apply(terms[0].action, r).1, default, x);
      } else {
        EvalKeepsAsn(terms[1..], r, default, x);
      }
    }
  }
}
