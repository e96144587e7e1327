/**
 * Whole evaluations of one choose or pick node. The engine calls the handler
 * again and again: whenever the handler hands back a child, the engine evaluates
 * that child (unless it is evaluated already) and calls the handler once more;
 * when the handler hands back the node itself, the node is done (it has its
 * result) or an error stopped the run.
 *
 * The children's meanings come from a `Semantics` record and every random draw
 * from an arbitrary function `rand`, so the lemmas below hold for every
 * outcome of `Tools.randInt`.
 */
module ChooseRuns {
  import opened Wrappers
  import opened ChooseSemantics

  /**
   * What the children evaluate to: the domain's value, the condition's value and
   * the do-rule's updates for each binding of x, and the ifnone-rule's updates.
   */
  datatype Semantics = Semantics(
    domainValue: Element,
    guardOf: Element -> Element,
    body: Element -> multiset<Update>,
    ifnoneUpdates: multiset<Update>)

  /** The engine evaluates the child a handler returned; an evaluated child is left as it is. */
  function Evaluate(c: Config, sem: Semantics, s: State, next: Next): (r: State)
    ensures r.env == s.env && r.remained == s.remained && r.errors == s.errors
    ensures r.evaluated == s.evaluated && r.value == s.value && r.updates == s.updates
  {
    match next
    case Domain =>
      if s.domain.evaluated then s else s.(domain := Child(true, sem.domainValue, multiset{}))
    case Guard =>
      if s.guard.evaluated then s else s.(guard := Child(true, sem.guardOf(EnvGet(s.env, c.variable)), multiset{}))
    case DoRule =>
      if s.doRule.evaluated then s else s.(doRule := Child(true, Undef, sem.body(EnvGet(s.env, c.variable))))
    case Ifnone =>
      if s.ifnone.evaluated then s else s.(ifnone := Child(true, Undef, sem.ifnoneUpdates))
    case Self => s
  }

  /** The index `Tools.randInt(n)` yields, taken from the random source `r`. */
  function DrawIndex(c: Config, s: State, r: nat): (i: nat)
    ensures DrawInRange(c, s, i)
  {
    var n := |Candidates(c, s)|;
    if n == 0 then 0 else r % n
  }

  /** A finished evaluation: the final state and the candidates bound for the condition, in order. */
  datatype Finished = Finished(state: State, drawn: seq<Element>)

  /** An evaluation with candidate t bound for the condition ahead of it. */
  function Prepend(t: Element, e: Option<Finished>): (r: Option<Finished>)
    ensures r.Some? <==> e.Some?
    ensures r.Some? ==> r.value.state == e.value.state && r.value.drawn == [t] + e.value.drawn
  {
    if e.None? then None else Some(Finished(e.value.state, [t] + e.value.drawn))
  }

  /**
   * At most `fuel` handler calls, the k-th one drawing with `rand(k)`; `None`
   * when the node is not done within `fuel` calls.
   */
  function Evaluation(c: Config, sem: Semantics, rand: nat -> nat, s: State, k: nat, fuel: nat): Option<Finished>
    decreases fuel
  {
    if fuel == 0 then None
    else
      var r := Interpret(c, s, DrawIndex(c, s, rand(k)));
      if r.1 == Self then Some(Finished(r.0, []))
      else
        var rest := Evaluation(c, sem, rand, Evaluate(c, sem, r.0, r.1), k + 1, fuel - 1);
        if r.1 == Guard then Prepend(EnvGet(r.0.env, c.variable), rest) else rest
  }

  /** A node that is not evaluated and none of whose children is. */
  predicate Fresh(s: State)
  {
    !s.evaluated && !s.domain.evaluated && !s.guard.evaluated && !s.doRule.evaluated && !s.ifnone.evaluated
  }

  /** The domain's enumeration; nothing when the domain is not enumerable. */
  function Members(sem: Semantics): seq<Element>
  {
    if sem.domainValue.Enumerable? then sem.domainValue.members else []
  }

  /** Candidate t is acceptable: there is no condition, or the condition holds for it. */
  predicate Accepts(c: Config, sem: Semantics, t: Element)
  {
    !c.hasGuard || sem.guardOf(t) == BooleanElement(true)
  }

  /** Candidate t is turned down: there is a condition and it is false for t. */
  predicate Rejects(c: Config, sem: Semantics, t: Element)
  {
    c.hasGuard && sem.guardOf(t) == BooleanElement(false)
  }

  /** The node's result when x was bound to t: the do-rule's updates, or t itself for pick. */
  predicate ResultFor(c: Config, sem: Semantics, r: State, t: Element)
  {
    if c.kind == PickExpNode then r.value == Some(t) && r.updates == None
    else r.updates == Some(sem.body(t)) && r.value == None
  }

  /** The node's result when no candidate is acceptable: UNDEF for pick, the ifnone-rule's updates or none. */
  predicate ResultForNone(c: Config, sem: Semantics, r: State)
  {
    if c.kind == PickExpNode then r.value == Some(Undef) && r.updates == None
    else r.updates == Some(if c.hasIfnone then sem.ifnoneUpdates else multiset{}) && r.value == None
  }

  /** A completed node: x is unbound again, nothing was reported, and the remaining list is dropped. */
  predicate Completed(c: Config, s0: State, r: State)
  {
    r.evaluated && r.env == s0.env && r.errors == s0.errors &&
    r.remained == (if c.hasGuard then s0.remained - {c.domainId} else s0.remained)
  }

  /** The domain error a node reports when its domain is not enumerable. */
  function DomainError(c: Config, v: Element): SpecError
  {
    if c.kind == PickExpNode then CannotPick(v) else CannotChoose(v)
  }

  /** The condition error a node reports when its condition is not Boolean. */
  function ConditionError(c: Config, g: Element): SpecError
  {
    if c.kind == PickExpNode then PickConditionNotBoolean(g) else ChooseConditionNotBoolean(g)
  }

  /**
   * How an evaluation of a fresh node ends: with the result for an acceptable
   * candidate, with the no-candidate result when every candidate is turned
   * down, with an error for a domain that is not enumerable, or with an error
   * for a candidate whose condition is not Boolean. An error leaves the node
   * without a result; after a condition error x is still bound to that
   * candidate and the shortened list of remaining candidates is still stored.
   */
  predicate Outcome(c: Config, sem: Semantics, s0: State, r: State)
  {
    var m := Members(sem);
    (exists t :: t in m && Accepts(c, sem, t) && ResultFor(c, sem, r, t) && Completed(c, s0, r)) ||
    ((forall t :: t in m ==> Rejects(c, sem, t)) && sem.domainValue.Enumerable? &&
     ResultForNone(c, sem, r) && Completed(c, s0, r)) ||
    (!sem.domainValue.Enumerable? && !r.evaluated && r.errors == s0.errors + [DomainError(c, sem.domainValue)] &&
     r.env == s0.env && r.remained == (if c.hasGuard then s0.remained - {c.domainId} else s0.remained)) ||
    (exists t :: t in m && ConditionFailed(c, sem, s0, r, t))
  }

  /**
   * The node reported that the condition for candidate t is not Boolean: it
   * has no result, x is still bound to t, and the list of remaining candidates,
   * stored for the node, holds at most the members other than t.
   */
  predicate ConditionFailed(c: Config, sem: Semantics, s0: State, r: State, t: Element)
  {
    c.hasGuard && !sem.guardOf(t).BooleanElement? && !r.evaluated &&
    r.errors == s0.errors + [ConditionError(c, sem.guardOf(t))] &&
    r.env == EnvAdd(s0.env, c.variable, t) &&
    c.domainId in r.remained && multiset(r.remained[c.domainId]) + multiset{t} <= multiset(Members(sem)) &&
    r.remained - {c.domainId} == s0.remained - {c.domainId}
  }

  /**
   * A guarded node between two draws: the domain is evaluated and enumerable,
   * no other child is, x is unbound, and every candidate no longer in the
   * remaining list has been turned down.
   */
  ghost predicate Ready(c: Config, sem: Semantics, s0: State, s: State)
  {
    var m := Members(sem);
    c.hasGuard && c.kind != OtherNode &&
    s.domain == Child(true, sem.domainValue, multiset{}) && sem.domainValue.Enumerable? &&
    !s.guard.evaluated && !s.doRule.evaluated && !s.ifnone.evaluated && !s.evaluated &&
    s.env == s0.env && s.errors == s0.errors &&
    s.remained - {c.domainId} == s0.remained - {c.domainId} &&
    multiset(Candidates(c, s)) <= multiset(m) &&
    forall t :: t in multiset(m) - multiset(Candidates(c, s)) ==> Rejects(c, sem, t)
  }

  /** Dropping a key after overwriting it is dropping it from the original map. */
  lemma {:induction false} RemoveAfterUpdate(m: map<nat, seq<Element>>, id: nat, v: seq<Element>)
    ensures m[id := v] - {id} == m - {id}
  {
  }

  /** A ready node with candidates left draws one and hands back its condition. */
  lemma {:induction false} ReadyDraws(c: Config, sem: Semantics, s0: State, s: State, i: nat)
    requires Ready(c, sem, s0, s) && i < |Candidates(c, s)|
    ensures Interpret(c, s, i) == (Draw(c, s, i), Guard)
  {
  }

  /**
   * A ready node without candidates left: pick yields UNDEF, choose without an
   * ifnone-rule yields no updates, and choose with one hands back the ifnone-rule.
   */
  lemma {:induction false} ReadyExhausted(c: Config, sem: Semantics, s0: State, s: State, i: nat)
    requires Ready(c, sem, s0, s) && |Candidates(c, s)| == 0
    ensures var id := c.domainId;
            Interpret(c, s, i) ==
              if c.kind == PickExpNode then (SetNode(s.(remained := s.remained - {id}), None, Some(Undef)), Self)
              else if !c.hasIfnone then (SetNode(s.(remained := s.remained - {id}), Some(multiset{}), None), Self)
              else (s.(remained := s.remained[id := []]), Ifnone)
  {
  }

  /** With the condition evaluated and neither rule evaluated, the condition decides. */
  lemma {:induction false} ConditionDecides(c: Config, s: State, i: nat)
    requires c.hasGuard && c.kind != OtherNode && DrawInRange(c, s, i)
    requires s.domain.evaluated && s.guard.evaluated && !s.doRule.evaluated && !s.ifnone.evaluated
    ensures var g, id, x := s.guard.value, c.domainId, c.variable;
            Interpret(c, s, i) ==
              if !g.BooleanElement? then (Report(s, ConditionError(c, g)), Self)
              else if !g.b then (Reject(c, s), Domain)
              else if c.kind == PickExpNode then
                (SetNode(s.(env := EnvRemove(s.env, x), remained := s.remained - {id}), None, Some(EnvGet(s.env, x))), Self)
              else (s, DoRule)
  {
  }

  /** With the condition and the do-rule evaluated, a choose node takes the do-rule's updates. */
  lemma {:induction false} BodyDone(c: Config, s: State, i: nat)
    requires c.hasGuard && c.kind == ChooseRuleNode && DrawInRange(c, s, i)
    requires s.domain.evaluated && s.guard.evaluated && s.doRule.evaluated && !s.ifnone.evaluated
    ensures Interpret(c, s, i) ==
      (SetNode(s.(env := EnvRemove(s.env, c.variable), remained := s.remained - {c.domainId}), Some(s.doRule.updates), None), Self)
  {
  }

  /** With the ifnone-rule evaluated (and the condition not), a choose node takes its updates. */
  lemma {:induction false} IfnoneDone(c: Config, s: State, i: nat)
    requires c.hasGuard && c.kind == ChooseRuleNode && c.hasIfnone && DrawInRange(c, s, i)
    requires s.domain.evaluated && !s.guard.evaluated && !s.doRule.evaluated && s.ifnone.evaluated
    ensures Interpret(c, s, i) ==
      (SetNode(s.(remained := s.remained - {c.domainId}), Some(s.ifnone.updates), None), Self)
  {
  }

  /** One handler call that hands back the node ends the evaluation. */
  lemma {:induction false} Stops(c: Config, sem: Semantics, rand: nat -> nat, s: State, k: nat, fuel: nat, r: State)
    requires fuel > 0 && Interpret(c, s, DrawIndex(c, s, rand(k))) == (r, Self)
    ensures Evaluation(c, sem, rand, s, k, fuel) == Some(Finished(r, []))
  {
  }

  /** One handler call that hands back the domain, the do-rule or the ifnone-rule. */
  lemma {:induction false} Continues(c: Config, sem: Semantics, rand: nat -> nat, s: State, k: nat, fuel: nat, r: State, next: Next)
    requires fuel > 0 && Interpret(c, s, DrawIndex(c, s, rand(k))) == (r, next) && next != Self && next != Guard
    ensures Evaluation(c, sem, rand, s, k, fuel) == Evaluation(c, sem, rand, Evaluate(c, sem, r, next), k + 1, fuel - 1)
  {
  }

  /** One handler call that hands back the condition: the bound candidate is recorded. */
  lemma {:induction false} ContinuesToCondition(c: Config, sem: Semantics, rand: nat -> nat, s: State, k: nat, fuel: nat, r: State)
    requires fuel > 0 && Interpret(c, s, DrawIndex(c, s, rand(k))) == (r, Guard)
    ensures Evaluation(c, sem, rand, s, k, fuel) ==
            Prepend(EnvGet(r.env, c.variable), Evaluation(c, sem, rand, Evaluate(c, sem, r, Guard), k + 1, fuel - 1))
  {
  }

  /** A ready node without candidates left: every candidate was turned down. */
  lemma {:induction false} GuardedExhausted(c: Config, sem: Semantics, rand: nat -> nat, s0: State, s: State, k: nat, fuel: nat)
    requires Ready(c, sem, s0, s) && |Candidates(c, s)| == 0 && fuel >= 3
    ensures var e := Evaluation(c, sem, rand, s, k, fuel);
            e.Some? && e.value.drawn == [] && Outcome(c, sem, s0, e.value.state)
  {
    var m, id := Members(sem), c.domainId;
    forall t | t in m
      ensures Rejects(c, sem, t)
    {
      assert t in multiset(m) - multiset(Candidates(c, s));
    }
    var i := DrawIndex(c, s, rand(k));
    ReadyExhausted(c, sem, s0, s, i);
    if c.kind == ChooseRuleNode && c.hasIfnone {
      var s1 := s.(remained := s.remained[id := []]);
      Continues(c, sem, rand, s, k, fuel, s1, Ifnone);
      var s2 := Evaluate(c, sem, s1, Ifnone);
      var r := SetNode(s2.(remained := s2.remained - {id}), Some(sem.ifnoneUpdates), None);
      var k1, fuel1 := k + 1, fuel - 1;
      IfnoneDone(c, s2, DrawIndex(c, s2, rand(k1)));
      Stops(c, sem, rand, s2, k1, fuel1, r);
      RemoveAfterUpdate(s.remained, id, []);
      assert Completed(c, s0, r);
    } else {
      Stops(c, sem, rand, s, k, fuel, Interpret(c, s, i).0);
      assert Completed(c, s0, Interpret(c, s, i).0);
    }
  }

  /** The state after drawing candidate i and evaluating the condition for it. */
  function Drawn(c: Config, sem: Semantics, s: State, i: nat): (r: State)
    requires i < |Candidates(c, s)|
  {
    Evaluate(c, sem, Draw(c, s, i), Guard)
  }

  /** After a draw of t whose condition is not Boolean, the node reports it and stops. */
  lemma {:induction false} GuardedConditionError(c: Config, sem: Semantics, rand: nat -> nat, s0: State, s: State, i: nat, k: nat, fuel: nat)
    requires Ready(c, sem, s0, s) && i < |Candidates(c, s)| && fuel >= 2
    requires !sem.guardOf(Candidates(c, s)[i]).BooleanElement?
    ensures var e, t := Evaluation(c, sem, rand, Drawn(c, sem, s, i), k + 1, fuel - 1), Candidates(c, s)[i];
            e.Some? && e.value.drawn == [] && !e.value.state.evaluated &&
            e.value.state.errors == s0.errors + [ConditionError(c, sem.guardOf(t))] &&
            e.value.state.env == EnvAdd(s0.env, c.variable, t) &&
            e.value.state.remained == s.remained[c.domainId := RemoveAt(Candidates(c, s), i)]
  {
    var k1, fuel1 := k + 1, fuel - 1;
    var t, s2 := Candidates(c, s)[i], Drawn(c, sem, s, i);
    var g := sem.guardOf(t);
    assert s2.guard == Child(true, g, multiset{});
    ConditionDecides(c, s2, DrawIndex(c, s2, rand(k1)));
    Stops(c, sem, rand, s2, k1, fuel1, Report(s2, ConditionError(c, g)));
  }

  /** After a draw of t whose condition is true, a pick node yields t. */
  lemma {:induction false} PickAccepted(c: Config, sem: Semantics, rand: nat -> nat, s0: State, s: State, i: nat, k: nat, fuel: nat,
                                        s2: State, k1: nat, fuel1: nat)
    requires Ready(c, sem, s0, s) && c.kind == PickExpNode && i < |Candidates(c, s)| && fuel >= 2
    requires sem.guardOf(Candidates(c, s)[i]) == BooleanElement(true)
    requires s2 == Drawn(c, sem, s, i) && k1 == k + 1 && fuel1 == fuel - 1
    ensures var e := Evaluation(c, sem, rand, s2, k1, fuel1);
            e.Some? && e.value.drawn == [] && ResultFor(c, sem, e.value.state, Candidates(c, s)[i]) && Completed(c, s0, e.value.state)
  {
    var list, id, x := Candidates(c, s), c.domainId, c.variable;
    var t := list[i];
    assert s2.guard == Child(true, BooleanElement(true), multiset{});
    ConditionDecides(c, s2, DrawIndex(c, s2, rand(k1)));
    RemoveAfterUpdate(s.remained, id, RemoveAt(list, i));
    EnvRemoveAdd(s.env, x, t);
    var r := SetNode(s2.(env := EnvRemove(s2.env, x), remained := s2.remained - {id}), None, Some(EnvGet(s2.env, x)));
    Stops(c, sem, rand, s2, k1, fuel1, r);
    assert ResultFor(c, sem, r, t) && Completed(c, s0, r);
  }

  /** After a draw of t whose condition is true, a choose node runs its do-rule and yields its updates. */
  lemma {:induction false} ChooseAccepted(c: Config, sem: Semantics, rand: nat -> nat, s0: State, s: State, i: nat, k: nat, fuel: nat,
                                          s2: State, k1: nat, fuel1: nat)
    requires Ready(c, sem, s0, s) && c.kind == ChooseRuleNode && i < |Candidates(c, s)| && fuel >= 3
    requires sem.guardOf(Candidates(c, s)[i]) == BooleanElement(true)
    requires s2 == Drawn(c, sem, s, i) && k1 == k + 1 && fuel1 == fuel - 1
    ensures var e := Evaluation(c, sem, rand, s2, k1, fuel1);
            e.Some? && e.value.drawn == [] && ResultFor(c, sem, e.value.state, Candidates(c, s)[i]) && Completed(c, s0, e.value.state)
  {
    var list, id, x := Candidates(c, s), c.domainId, c.variable;
    var t := list[i];
    assert s2.guard == Child(true, BooleanElement(true), multiset{});
    ConditionDecides(c, s2, DrawIndex(c, s2, rand(k1)));
    Continues(c, sem, rand, s2, k1, fuel1, s2, DoRule);
    var s3 := Evaluate(c, sem, s2, DoRule);
    var r := SetNode(s3.(env := EnvRemove(s3.env, x), remained := s3.remained - {id}), Some(s3.doRule.updates), None);
    var k2, fuel2 := k1 + 1, fuel1 - 1;
    BodyDone(c, s3, DrawIndex(c, s3, rand(k2)));
    Stops(c, sem, rand, s3, k2, fuel2, r);
    RemoveAfterUpdate(s.remained, id, RemoveAt(list, i));
    EnvRemoveAdd(s.env, x, t);
    assert ResultFor(c, sem, r, t) && Completed(c, s0, r);
  }

  /** A sub-multiset is no larger. */
  lemma {:induction false} SubMultisetSize(a: multiset<Element>, b: multiset<Element>)
    requires a <= b
    ensures |a| <= |b|
    decreases |a|
  {
    if a != multiset{} {
      var x :| x in a;
      SubMultisetSize(a - multiset{x}, b - multiset{x});
    }
  }

  /** A sub-multiset as large as the whole is the whole. */
  lemma {:induction false} SubMultisetSame(a: multiset<Element>, b: multiset<Element>)
    requires a <= b && |a| == |b|
    ensures a == b
    decreases |a|
  {
    if a != multiset{} {
      var x :| x in a;
      SubMultisetSame(a - multiset{x}, b - multiset{x});
      assert a == (a - multiset{x}) + multiset{x};
      assert b == (b - multiset{x}) + multiset{x};
    }
  }

  /** Removing a candidate from the remaining list adds it to the candidates tried. */
  lemma {:induction false} TriedGrows(m: seq<Element>, list: seq<Element>, i: nat)
    requires i < |list| && multiset(list) <= multiset(m)
    ensures multiset(RemoveAt(list, i)) <= multiset(m)
    ensures multiset(m) - multiset(RemoveAt(list, i)) == (multiset(m) - multiset(list)) + multiset{list[i]}
  {
  }

  /** A draw whose condition is false leaves the node ready again, with one candidate fewer. */
  lemma {:induction false} GuardedRetries(c: Config, sem: Semantics, s0: State, s: State, i: nat, j: nat)
    requires Ready(c, sem, s0, s) && i < |Candidates(c, s)|
    requires sem.guardOf(Candidates(c, s)[i]) == BooleanElement(false)
    requires DrawInRange(c, Drawn(c, sem, s, i), j)
    ensures var s2 := Drawn(c, sem, s, i);
            Interpret(c, s2, j) == (Reject(c, s2), Domain) &&
            Evaluate(c, sem, Reject(c, s2), Domain) == Reject(c, s2) &&
            Ready(c, sem, s0, Reject(c, s2)) &&
            Candidates(c, Reject(c, s2)) == RemoveAt(Candidates(c, s), i)
  {
    var list, id, x := Candidates(c, s), c.domainId, c.variable;
    var s2 := Drawn(c, sem, s, i);
    ConditionDecides(c, s2, j);
    var s3 := Reject(c, s2);
    assert Candidates(c, s3) == RemoveAt(list, i);
    TriedGrows(Members(sem), list, i);
    RemoveAfterUpdate(s.remained, id, RemoveAt(list, i));
    EnvRemoveAdd(s.env, x, list[i]);
  }

  /** A candidate drawn ahead of candidates drawn from the rest stays within the list. */
  lemma {:induction false} DrawnOnce(list: seq<Element>, i: nat, drawn: seq<Element>)
    requires i < |list| && multiset(drawn) <= multiset(RemoveAt(list, i))
    ensures multiset([list[i]] + drawn) <= multiset(list)
  {
    assert multiset(RemoveAt(list, i)) + multiset{list[i]} == multiset(list);
    assert multiset([list[i]] + drawn) == multiset{list[i]} + multiset(drawn);
  }

  /** A ready node with candidates left draws candidate i, binds it and evaluates the condition. */
  lemma {:induction false} ReadyStep(c: Config, sem: Semantics, rand: nat -> nat, s0: State, s: State, k: nat, fuel: nat, i: nat)
    requires Ready(c, sem, s0, s) && |Candidates(c, s)| > 0 && fuel > 0 && i == DrawIndex(c, s, rand(k))
    ensures Evaluation(c, sem, rand, s, k, fuel) ==
            Prepend(Candidates(c, s)[i], Evaluation(c, sem, rand, Drawn(c, sem, s, i), k + 1, fuel - 1))
  {
    var s1 := Draw(c, s, i);
    ReadyDraws(c, sem, s0, s, i);
    ContinuesToCondition(c, sem, rand, s, k, fuel, s1);
    assert EnvGet(s1.env, c.variable) == Candidates(c, s)[i];
  }

  /** An outcome reached after binding candidate i stays an outcome, binding only candidates. */
  lemma {:induction false} PrependEnds(c: Config, sem: Semantics, rand: nat -> nat, s0: State, s: State, i: nat, k: nat, fuel: nat)
    requires i < |Candidates(c, s)| && fuel > 0
    requires var e := Evaluation(c, sem, rand, Drawn(c, sem, s, i), k + 1, fuel - 1);
             e.Some? && Outcome(c, sem, s0, e.value.state) &&
             (e.value.drawn == [] || multiset([Candidates(c, s)[i]] + e.value.drawn) <= multiset(Candidates(c, s)))
    ensures var r := Prepend(Candidates(c, s)[i], Evaluation(c, sem, rand, Drawn(c, sem, s, i), k + 1, fuel - 1));
            r.Some? && Outcome(c, sem, s0, r.value.state) && multiset(r.value.drawn) <= multiset(Candidates(c, s))
  {
    assert Candidates(c, s)[i] in multiset(Candidates(c, s));
  }

  /**
   * From a ready guarded node, the evaluation ends within 2n + 3 calls, where n
   * is the number of remaining candidates, and binds each of them at most once.
   */
  lemma {:induction false} GuardedFromReady(c: Config, sem: Semantics, rand: nat -> nat, s0: State, s: State, k: nat, fuel: nat)
    requires Ready(c, sem, s0, s)
    requires fuel >= 2 * |Candidates(c, s)| + 3
    ensures var e := Evaluation(c, sem, rand, s, k, fuel);
            e.Some? && Outcome(c, sem, s0, e.value.state) &&
            multiset(e.value.drawn) <= multiset(Candidates(c, s))
    decreases |Candidates(c, s)|, 3
  {
    var i := DrawIndex(c, s, rand(k));
    if |Candidates(c, s)| == 0 {
      GuardedExhausted(c, sem, rand, s0, s, k, fuel);
    } else {
      ReadyStep(c, sem, rand, s0, s, k, fuel, i);
      DrawnEnds(c, sem, rand, s0, s, i, k, fuel);
      PrependEnds(c, sem, rand, s0, s, i, k, fuel);
    }
  }

  /**
   * Once candidate i of a ready node is drawn and its condition evaluated, the
   * evaluation ends; the candidates bound later, after i, stay within the list.
   */
  lemma {:induction false} DrawnEnds(c: Config, sem: Semantics, rand: nat -> nat, s0: State, s: State, i: nat, k: nat, fuel: nat)
    requires Ready(c, sem, s0, s) && i < |Candidates(c, s)|
    requires fuel >= 2 * |Candidates(c, s)| + 3
    ensures var e := Evaluation(c, sem, rand, Drawn(c, sem, s, i), k + 1, fuel - 1);
            e.Some? && Outcome(c, sem, s0, e.value.state) &&
            (e.value.drawn == [] || multiset([Candidates(c, s)[i]] + e.value.drawn) <= multiset(Candidates(c, s)))
    decreases |Candidates(c, s)|, 2
  {
    var s2, k1, fuel1 := Drawn(c, sem, s, i), k + 1, fuel - 1;
    if sem.guardOf(Candidates(c, s)[i]) == BooleanElement(false) {
      RejectedEnds(c, sem, rand, s0, s, i, s2, k1, fuel1);
    } else {
      DecidedOutcome(c, sem, rand, s0, s, i, k, fuel, s2, k1, fuel1);
    }
  }

  /** A drawn candidate whose condition is not false decides the outcome at once. */
  lemma {:induction false} DecidedOutcome(c: Config, sem: Semantics, rand: nat -> nat, s0: State, s: State, i: nat, k: nat, fuel: nat,
                                          s2: State, k1: nat, fuel1: nat)
    requires Ready(c, sem, s0, s) && i < |Candidates(c, s)| && fuel >= 3
    requires sem.guardOf(Candidates(c, s)[i]) != BooleanElement(false)
    requires s2 == Drawn(c, sem, s, i) && k1 == k + 1 && fuel1 == fuel - 1
    ensures var e := Evaluation(c, sem, rand, s2, k1, fuel1);
            e.Some? && e.value.drawn == [] && Outcome(c, sem, s0, e.value.state)
  {
    var g := sem.guardOf(Candidates(c, s)[i]);
    if !g.BooleanElement? {
      ConditionErrorOutcome(c, sem, rand, s0, s, i, k, fuel, s2, k1, fuel1);
    } else if c.kind == PickExpNode {
      PickOutcome(c, sem, rand, s0, s, i, k, fuel, s2, k1, fuel1);
    } else {
      ChooseOutcome(c, sem, rand, s0, s, i, k, fuel, s2, k1, fuel1);
    }
  }

  /** A condition error after a draw is one of the outcomes of the evaluation. */
  lemma {:induction false} ConditionErrorOutcome(c: Config, sem: Semantics, rand: nat -> nat, s0: State, s: State, i: nat, k: nat, fuel: nat,
                                                 s2: State, k1: nat, fuel1: nat)
    requires Ready(c, sem, s0, s) && i < |Candidates(c, s)| && fuel >= 2
    requires !sem.guardOf(Candidates(c, s)[i]).BooleanElement?
    requires s2 == Drawn(c, sem, s, i) && k1 == k + 1 && fuel1 == fuel - 1
    ensures var e := Evaluation(c, sem, rand, s2, k1, fuel1);
            e.Some? && e.value.drawn == [] && Outcome(c, sem, s0, e.value.state)
  {
    var list, t := Candidates(c, s), Candidates(c, s)[i];
    GuardedConditionError(c, sem, rand, s0, s, i, k, fuel);
    var r := Evaluation(c, sem, rand, s2, k1, fuel1).value.state;
    assert multiset(RemoveAt(list, i)) + multiset{t} == multiset(list);
    RemoveAfterUpdate(s.remained, c.domainId, RemoveAt(list, i));
    assert ConditionFailed(c, sem, s0, r, t);
    assert t in multiset(Members(sem));
  }

  /** An acceptable candidate drawn by a pick node is one of the outcomes of the evaluation. */
  lemma {:induction false} PickOutcome(c: Config, sem: Semantics, rand: nat -> nat, s0: State, s: State, i: nat, k: nat, fuel: nat,
                                       s2: State, k1: nat, fuel1: nat)
    requires Ready(c, sem, s0, s) && c.kind == PickExpNode && i < |Candidates(c, s)| && fuel >= 2
    requires sem.guardOf(Candidates(c, s)[i]) == BooleanElement(true)
    requires s2 == Drawn(c, sem, s, i) && k1 == k + 1 && fuel1 == fuel - 1
    ensures var e := Evaluation(c, sem, rand, s2, k1, fuel1);
            e.Some? && e.value.drawn == [] && Outcome(c, sem, s0, e.value.state)
  {
    PickAccepted(c, sem, rand, s0, s, i, k, fuel, s2, k1, fuel1);
    AcceptedOutcome(c, sem, s0, s, i, Evaluation(c, sem, rand, s2, k1, fuel1).value.state);
  }

  /** The result for an acceptable candidate of a ready node, with the node completed, is an outcome. */
  lemma {:induction false} AcceptedOutcome(c: Config, sem: Semantics, s0: State, s: State, i: nat, r: State)
    requires Ready(c, sem, s0, s) && i < |Candidates(c, s)| && sem.guardOf(Candidates(c, s)[i]) == BooleanElement(true)
    requires ResultFor(c, sem, r, Candidates(c, s)[i]) && Completed(c, s0, r)
    ensures Outcome(c, sem, s0, r)
  {
    var t := Candidates(c, s)[i];
    assert t in multiset(Candidates(c, s));
    assert t in multiset(Members(sem));
  }

  /** An acceptable candidate drawn by a choose node is one of the outcomes of the evaluation. */
  lemma {:induction false} ChooseOutcome(c: Config, sem: Semantics, rand: nat -> nat, s0: State, s: State, i: nat, k: nat, fuel: nat,
                                         s2: State, k1: nat, fuel1: nat)
    requires Ready(c, sem, s0, s) && c.kind == ChooseRuleNode && i < |Candidates(c, s)| && fuel >= 3
    requires sem.guardOf(Candidates(c, s)[i]) == BooleanElement(true)
    requires s2 == Drawn(c, sem, s, i) && k1 == k + 1 && fuel1 == fuel - 1
    ensures var e := Evaluation(c, sem, rand, s2, k1, fuel1);
            e.Some? && e.value.drawn == [] && Outcome(c, sem, s0, e.value.state)
  {
    ChooseAccepted(c, sem, rand, s0, s, i, k, fuel, s2, k1, fuel1);
    AcceptedOutcome(c, sem, s0, s, i, Evaluation(c, sem, rand, s2, k1, fuel1).value.state);
  }

  /** A drawn candidate whose condition is false is turned down, and the evaluation goes on with the rest. */
  lemma {:induction false} RejectedEnds(c: Config, sem: Semantics, rand: nat -> nat, s0: State, s: State, i: nat, s2: State, k1: nat, fuel1: nat)
    requires Ready(c, sem, s0, s) && i < |Candidates(c, s)|
    requires fuel1 >= 2 * |Candidates(c, s)| + 2
    requires sem.guardOf(Candidates(c, s)[i]) == BooleanElement(false) && s2 == Drawn(c, sem, s, i)
    ensures var e := Evaluation(c, sem, rand, s2, k1, fuel1);
            e.Some? && Outcome(c, sem, s0, e.value.state) &&
            multiset([Candidates(c, s)[i]] + e.value.drawn) <= multiset(Candidates(c, s))
    decreases |Candidates(c, s)|, 1
  {
    var s3, k2, fuel2 := Reject(c, s2), k1 + 1, fuel1 - 1;
    DrawnRejected(c, sem, s0, s, i, s2);
    RejectContinues(c, sem, rand, s2, k1, fuel1, s3, k2, fuel2);
    RetryReady(c, sem, s0, s, i, s3);
    GuardedRejected(c, sem, rand, s0, Candidates(c, s), i, s3, k2, fuel2);
  }

  /**
   * Once candidate i of `list` is turned down and the node is ready again with
   * the rest, the evaluation ends, and candidate i with those bound later stays
   * within the list.
   */
  lemma {:induction false} GuardedRejected(c: Config, sem: Semantics, rand: nat -> nat, s0: State, list: seq<Element>, i: nat, s: State, k: nat, fuel: nat)
    requires i < |list| && Ready(c, sem, s0, s) && Candidates(c, s) == RemoveAt(list, i)
    requires fuel >= 2 * |list| + 1
    ensures var e := Evaluation(c, sem, rand, s, k, fuel);
            e.Some? && Outcome(c, sem, s0, e.value.state) &&
            multiset([list[i]] + e.value.drawn) <= multiset(list)
    decreases |list|, 0
  {
    GuardedFromReady(c, sem, rand, s0, s, k, fuel);
    DrawnOnce(list, i, Evaluation(c, sem, rand, s, k, fuel).value.drawn);
  }

  /** Drawing a candidate whose condition is false leaves a node whose condition alone is evaluated, to false. */
  lemma {:induction false} DrawnRejected(c: Config, sem: Semantics, s0: State, s: State, i: nat, s2: State)
    requires Ready(c, sem, s0, s) && i < |Candidates(c, s)|
    requires sem.guardOf(Candidates(c, s)[i]) == BooleanElement(false)
    requires s2 == Drawn(c, sem, s, i)
    ensures c.hasGuard && c.kind != OtherNode && s2.domain.evaluated
    ensures s2.guard == Child(true, BooleanElement(false), multiset{}) && !s2.doRule.evaluated && !s2.ifnone.evaluated
  {
  }

  /** A false condition hands the node back to its evaluated domain with the condition cleared. */
  lemma {:induction false} RejectContinues(c: Config, sem: Semantics, rand: nat -> nat, s2: State, k: nat, fuel: nat,
                                           s3: State, k2: nat, fuel2: nat)
    requires c.hasGuard && c.kind != OtherNode && fuel > 0
    requires s2.domain.evaluated && s2.guard == Child(true, BooleanElement(false), multiset{})
    requires !s2.doRule.evaluated && !s2.ifnone.evaluated
    requires s3 == Reject(c, s2) && k2 == k + 1 && fuel2 == fuel - 1
    ensures Evaluation(c, sem, rand, s2, k, fuel) == Evaluation(c, sem, rand, s3, k2, fuel2)
  {
    ConditionDecides(c, s2, DrawIndex(c, s2, rand(k)));
    Continues(c, sem, rand, s2, k, fuel, Reject(c, s2), Domain);
  }

  /** After a false condition the node is ready again, with exactly the drawn candidate fewer. */
  lemma {:induction false} RetryReady(c: Config, sem: Semantics, s0: State, s: State, i: nat, s3: State)
    requires Ready(c, sem, s0, s) && i < |Candidates(c, s)|
    requires sem.guardOf(Candidates(c, s)[i]) == BooleanElement(false)
    requires s3 == Reject(c, Drawn(c, sem, s, i))
    ensures Ready(c, sem, s0, s3) && Candidates(c, s3) == RemoveAt(Candidates(c, s), i)
  {
    GuardedRetries(c, sem, s0, s, i, DrawIndex(c, Drawn(c, sem, s, i), 0));
  }

  /** Taking a candidate out of a list whose candidates are all turned down leaves such a list. */
  lemma {:induction false} RestRejected(c: Config, sem: Semantics, list: seq<Element>, i: nat)
    requires i < |list| && forall t :: t in list ==> Rejects(c, sem, t)
    ensures forall t :: t in RemoveAt(list, i) ==> Rejects(c, sem, t)
  {
    forall t | t in RemoveAt(list, i)
      ensures Rejects(c, sem, t)
    {
      assert t in multiset(RemoveAt(list, i));
      assert t in multiset(list);
    }
  }

  /** Without a condition no member is turned down, so a domain all of whose members are is empty. */
  lemma {:induction false} UnguardedNoneRejected(c: Config, sem: Semantics)
    requires !c.hasGuard && forall t :: t in Members(sem) ==> Rejects(c, sem, t)
    ensures Members(sem) == []
  {
    var m := Members(sem);
    assert |m| > 0 ==> Rejects(c, sem, m[0]);
  }

  /**
   * From a ready node whose remaining candidates are all turned down, the
   * condition is evaluated once for every remaining candidate.
   */
  lemma {:induction false} AllRejectedFromReady(c: Config, sem: Semantics, rand: nat -> nat, s0: State, s: State, k: nat, fuel: nat)
    requires Ready(c, sem, s0, s) && fuel >= 2 * |Candidates(c, s)| + 3
    requires forall t :: t in Candidates(c, s) ==> Rejects(c, sem, t)
    ensures var e := Evaluation(c, sem, rand, s, k, fuel);
            e.Some? && |e.value.drawn| == |Candidates(c, s)|
    decreases |Candidates(c, s)|, 2
  {
    var i := DrawIndex(c, s, rand(k));
    if |Candidates(c, s)| == 0 {
      GuardedExhausted(c, sem, rand, s0, s, k, fuel);
    } else {
      ReadyStep(c, sem, rand, s0, s, k, fuel, i);
      DrawnRest(c, sem, rand, s0, s, i, k, fuel);
    }
  }

  /** Once candidate i of a ready node whose candidates are all turned down is drawn, every other candidate follows. */
  lemma {:induction false} DrawnRest(c: Config, sem: Semantics, rand: nat -> nat, s0: State, s: State, i: nat, k: nat, fuel: nat)
    requires Ready(c, sem, s0, s) && i < |Candidates(c, s)| && fuel >= 2 * |Candidates(c, s)| + 3
    requires forall t :: t in Candidates(c, s) ==> Rejects(c, sem, t)
    ensures var e := Evaluation(c, sem, rand, Drawn(c, sem, s, i), k + 1, fuel - 1);
            e.Some? && |e.value.drawn| + 1 == |Candidates(c, s)|
    decreases |Candidates(c, s)|, 1
  {
    var s2, k1, fuel1 := Drawn(c, sem, s, i), k + 1, fuel - 1;
    assert Candidates(c, s)[i] in Candidates(c, s);
    RejectedDrawsRest(c, sem, rand, s0, s, i, s2, k1, fuel1);
  }

  /** After candidate i is drawn and turned down, the condition is evaluated once for every other candidate. */
  lemma {:induction false} RejectedDrawsRest(c: Config, sem: Semantics, rand: nat -> nat, s0: State, s: State, i: nat,
                                             s2: State, k1: nat, fuel1: nat)
    requires Ready(c, sem, s0, s) && i < |Candidates(c, s)| && fuel1 >= 2 * |Candidates(c, s)| + 2
    requires forall t :: t in Candidates(c, s) ==> Rejects(c, sem, t)
    requires sem.guardOf(Candidates(c, s)[i]) == BooleanElement(false) && s2 == Drawn(c, sem, s, i)
    ensures var e := Evaluation(c, sem, rand, s2, k1, fuel1);
            e.Some? && |e.value.drawn| + 1 == |Candidates(c, s)|
    decreases |Candidates(c, s)|, 0
  {
    var s3, k2, fuel2 := Reject(c, s2), k1 + 1, fuel1 - 1;
    DrawnRejected(c, sem, s0, s, i, s2);
    RejectContinues(c, sem, rand, s2, k1, fuel1, s3, k2, fuel2);
    RetryReady(c, sem, s0, s, i, s3);
    RestRejected(c, sem, Candidates(c, s), i);
    AllRejectedFromReady(c, sem, rand, s0, s3, k2, fuel2);
  }

  /** The state after the first call on a fresh node and the evaluation of its domain. */
  function Started(c: Config, sem: Semantics, s0: State): State
  {
    s0.(domain := Child(true, sem.domainValue, multiset{}),
        remained := if c.hasGuard then s0.remained - {c.domainId} else s0.remained)
  }

  /** The first call on a fresh node hands back the domain; guarded forms drop its remaining list. */
  lemma {:induction false} FreshStarts(c: Config, sem: Semantics, rand: nat -> nat, s0: State, k: nat, fuel: nat)
    requires c.kind != OtherNode && Fresh(s0) && fuel > 0
    ensures Evaluation(c, sem, rand, s0, k, fuel) == Evaluation(c, sem, rand, Started(c, sem, s0), k + 1, fuel - 1)
  {
    var r := if c.hasGuard then s0.(remained := s0.remained - {c.domainId}) else s0;
    assert Interpret(c, s0, DrawIndex(c, s0, rand(k))) == (r, Domain);
    Continues(c, sem, rand, s0, k, fuel, r, Domain);
  }

  /** After the domain of a fresh guarded node is evaluated, the node is ready, with all members as candidates. */
  lemma {:induction false} StartedReady(c: Config, sem: Semantics, s0: State)
    requires c.kind != OtherNode && c.hasGuard && Fresh(s0) && sem.domainValue.Enumerable?
    ensures Ready(c, sem, s0, Started(c, sem, s0)) && Candidates(c, Started(c, sem, s0)) == Members(sem)
  {
    var s1 := Started(c, sem, s0);
    assert Candidates(c, s1) == Members(sem);
    assert multiset(Members(sem)) - multiset(Candidates(c, s1)) == multiset{};
  }

  /** A domain that is not enumerable is reported on the second call. */
  lemma {:induction false} DomainRejected(c: Config, sem: Semantics, rand: nat -> nat, s0: State, k: nat, fuel: nat)
    requires c.kind != OtherNode && Fresh(s0) && !sem.domainValue.Enumerable? && fuel > 0
    ensures var e := Evaluation(c, sem, rand, Started(c, sem, s0), k, fuel);
            e.Some? && e.value.drawn == [] && Outcome(c, sem, s0, e.value.state)
  {
    var s1 := Started(c, sem, s0);
    Stops(c, sem, rand, s1, k, fuel, Report(s1, DomainError(c, sem.domainValue)));
  }

  /**
   * Without a condition, pick yields a member of the domain (UNDEF for an empty
   * one) and choose runs its do-rule once with x bound to a member (the
   * ifnone-rule, or nothing, for an empty domain).
   */
  lemma {:induction false} UnguardedRuns(c: Config, sem: Semantics, rand: nat -> nat, s0: State, k: nat, fuel: nat)
    requires c.kind != OtherNode && !c.hasGuard && Fresh(s0) && sem.domainValue.Enumerable? && fuel >= 2
    ensures var e := Evaluation(c, sem, rand, Started(c, sem, s0), k, fuel);
            e.Some? && e.value.drawn == [] && Outcome(c, sem, s0, e.value.state)
  {
    var s1 := Started(c, sem, s0);
    var m, x := Members(sem), c.variable;
    var i := DrawIndex(c, s1, rand(k));
    if |m| == 0 {
      if c.kind == ChooseRuleNode && c.hasIfnone {
        Continues(c, sem, rand, s1, k, fuel, s1, Ifnone);
        var s2 := Evaluate(c, sem, s1, Ifnone);
        var k1, fuel1 := k + 1, fuel - 1;
        Stops(c, sem, rand, s2, k1, fuel1, SetNode(s2, Some(sem.ifnoneUpdates), None));
      } else {
        Stops(c, sem, rand, s1, k, fuel, Interpret(c, s1, i).0);
      }
    } else {
      UnguardedTakes(c, sem, rand, s0, k, fuel);
      assert m[i] in m;
    }
  }

  /** Without a condition, the member drawn first is the result: pick yields it, choose runs its do-rule for it. */
  lemma {:induction false} UnguardedTakes(c: Config, sem: Semantics, rand: nat -> nat, s0: State, k: nat, fuel: nat)
    requires c.kind != OtherNode && !c.hasGuard && Fresh(s0) && sem.domainValue.Enumerable? && fuel >= 2
    requires |Members(sem)| > 0
    ensures var e, t := Evaluation(c, sem, rand, Started(c, sem, s0), k, fuel),
                        Members(sem)[DrawIndex(c, Started(c, sem, s0), rand(k))];
            e.Some? && e.value.drawn == [] && ResultFor(c, sem, e.value.state, t) && Completed(c, s0, e.value.state)
  {
    var s1 := Started(c, sem, s0);
    var m, x := Members(sem), c.variable;
    var i := DrawIndex(c, s1, rand(k));
    if c.kind == PickExpNode {
      var r := SetNode(s1, None, Some(m[i]));
      Stops(c, sem, rand, s1, k, fuel, r);
      assert ResultFor(c, sem, r, m[i]);
    } else {
      var t := m[i];
      var s2 := s1.(env := EnvAdd(s1.env, x, t));
      Continues(c, sem, rand, s1, k, fuel, s2, DoRule);
      var s3 := Evaluate(c, sem, s2, DoRule);
      EnvRemoveAdd(s0.env, x, t);
      var r := SetNode(s3.(env := EnvRemove(s3.env, x)), Some(sem.body(t)), None);
      var k1, fuel1 := k + 1, fuel - 1;
      Stops(c, sem, rand, s3, k1, fuel1, r);
      assert ResultFor(c, sem, r, t);
    }
  }

  /** A guarded node whose first drawn candidate is acceptable yields the result for that candidate. */
  lemma {:induction false} GuardedTakes(c: Config, sem: Semantics, rand: nat -> nat, s0: State, k: nat, fuel: nat)
    requires c.kind != OtherNode && c.hasGuard && Fresh(s0) && sem.domainValue.Enumerable? && fuel >= 3
    requires |Members(sem)| > 0 && Accepts(c, sem, Members(sem)[DrawIndex(c, Started(c, sem, s0), rand(k))])
    ensures var e, t := Evaluation(c, sem, rand, Started(c, sem, s0), k, fuel),
                        Members(sem)[DrawIndex(c, Started(c, sem, s0), rand(k))];
            e.Some? && e.value.drawn == [t] && ResultFor(c, sem, e.value.state, t) && Completed(c, s0, e.value.state)
  {
    var s1 := Started(c, sem, s0);
    var i := DrawIndex(c, s1, rand(k));
    StartedReady(c, sem, s0);
    ReadyStep(c, sem, rand, s0, s1, k, fuel, i);
    var s2, k1, fuel1 := Drawn(c, sem, s1, i), k + 1, fuel - 1;
    AcceptedResult(c, sem, rand, s0, s1, i, k, fuel, s2, k1, fuel1);
  }

  /** An acceptable drawn candidate is the result of a ready pick or choose node. */
  lemma {:induction false} AcceptedResult(c: Config, sem: Semantics, rand: nat -> nat, s0: State, s: State, i: nat, k: nat, fuel: nat,
                                          s2: State, k1: nat, fuel1: nat)
    requires Ready(c, sem, s0, s) && i < |Candidates(c, s)| && fuel >= 3
    requires sem.guardOf(Candidates(c, s)[i]) == BooleanElement(true)
    requires s2 == Drawn(c, sem, s, i) && k1 == k + 1 && fuel1 == fuel - 1
    ensures var e := Evaluation(c, sem, rand, s2, k1, fuel1);
            e.Some? && e.value.drawn == [] && ResultFor(c, sem, e.value.state, Candidates(c, s)[i]) && Completed(c, s0, e.value.state)
  {
    if c.kind == PickExpNode {
      PickAccepted(c, sem, rand, s0, s, i, k, fuel, s2, k1, fuel1);
    } else {
      ChooseAccepted(c, sem, rand, s0, s, i, k, fuel, s2, k1, fuel1);
    }
  }

  /** Once the domain of a fresh node is evaluated, an acceptable first draw is the result. */
  lemma {:induction false} StartedTakes(c: Config, sem: Semantics, rand: nat -> nat, s0: State, k: nat, fuel: nat)
    requires c.kind != OtherNode && Fresh(s0) && sem.domainValue.Enumerable? && fuel >= 3
    requires |Members(sem)| > 0 && Accepts(c, sem, Members(sem)[DrawIndex(c, Started(c, sem, s0), rand(k))])
    ensures var e, t := Evaluation(c, sem, rand, Started(c, sem, s0), k, fuel),
                        Members(sem)[DrawIndex(c, Started(c, sem, s0), rand(k))];
            e.Some? && ResultFor(c, sem, e.value.state, t) && Completed(c, s0, e.value.state)
  {
    if c.hasGuard {
      GuardedTakes(c, sem, rand, s0, k, fuel);
    } else {
      UnguardedTakes(c, sem, rand, s0, k, fuel);
    }
  }

  /**
   * Every acceptable member of the domain is a possible result: some sequence
   * of random draws makes a fresh node bind it and yield its result.
   */
  lemma {:induction false} PossibleResult(c: Config, sem: Semantics, s0: State, k: nat, fuel: nat, t: Element)
    requires c.kind != OtherNode && Fresh(s0) && fuel >= 4 && t in Members(sem) && Accepts(c, sem, t)
    ensures exists rand: nat -> nat :: var e := Evaluation(c, sem, rand, s0, k, fuel);
                                       e.Some? && ResultFor(c, sem, e.value.state, t) && Completed(c, s0, e.value.state)
  {
    var idx: nat :| idx < |Members(sem)| && Members(sem)[idx] == t;
    var rand: nat -> nat := _ => idx;
    var k1, fuel1 := k + 1, fuel - 1;
    var s1 := Started(c, sem, s0);
    assert Candidates(c, s1) == Members(sem);
    assert DrawIndex(c, s1, rand(k1)) == idx;
    FreshStarts(c, sem, rand, s0, k, fuel);
    StartedTakes(c, sem, rand, s0, k1, fuel1);
    var e := Evaluation(c, sem, rand, s0, k, fuel);
    assert e.Some? && ResultFor(c, sem, e.value.state, t) && Completed(c, s0, e.value.state);
  }

  /** After its domain is evaluated, a fresh node whose members are all turned down evaluates the condition once per member. */
  lemma {:induction false} AllRejectedStarted(c: Config, sem: Semantics, rand: nat -> nat, s0: State, k: nat, fuel: nat)
    requires c.kind != OtherNode && Fresh(s0) && sem.domainValue.Enumerable? && fuel >= 2 * |Members(sem)| + 3
    requires forall t :: t in Members(sem) ==> Rejects(c, sem, t)
    ensures var e := Evaluation(c, sem, rand, Started(c, sem, s0), k, fuel);
            e.Some? && |e.value.drawn| == |Members(sem)|
  {
    if c.hasGuard {
      StartedReady(c, sem, s0);
      AllRejectedFromReady(c, sem, rand, s0, Started(c, sem, s0), k, fuel);
    } else {
      UnguardedNoneRejected(c, sem);
      UnguardedRuns(c, sem, rand, s0, k, fuel);
    }
  }

  /** After its domain is evaluated, a fresh node ends with an outcome, binding only members. */
  lemma {:induction false} StartedEnds(c: Config, sem: Semantics, rand: nat -> nat, s0: State, k: nat, fuel: nat)
    requires c.kind != OtherNode && Fresh(s0) && fuel >= 2 * |Members(sem)| + 3
    ensures var e := Evaluation(c, sem, rand, Started(c, sem, s0), k, fuel);
            e.Some? && Outcome(c, sem, s0, e.value.state) && multiset(e.value.drawn) <= multiset(Members(sem))
  {
    if !sem.domainValue.Enumerable? {
      DomainRejected(c, sem, rand, s0, k, fuel);
    } else if !c.hasGuard {
      UnguardedRuns(c, sem, rand, s0, k, fuel);
    } else {
      StartedReady(c, sem, s0);
      GuardedFromReady(c, sem, rand, s0, Started(c, sem, s0), k, fuel);
    }
  }

  /**
   * Every evaluation of a fresh choose or pick node over a domain of n elements
   * ends within 2n + 4 handler calls, whatever the random draws, with one of the
   * outcomes `Outcome` lists; the condition is evaluated at most n times and no
   * element is bound for it more often than it occurs in the domain. When every
   * member is turned down, the node yields the no-candidate result only after
   * the condition was evaluated, and false, for every member: exactly n times.
   */
  lemma {:induction false} EvaluationEnds(c: Config, sem: Semantics, rand: nat -> nat, s0: State, k: nat, fuel: nat)
    requires c.kind != OtherNode && Fresh(s0) && fuel >= 2 * |Members(sem)| + 4
    ensures var e := Evaluation(c, sem, rand, s0, k, fuel);
            e.Some? && Outcome(c, sem, s0, e.value.state) &&
            multiset(e.value.drawn) <= multiset(Members(sem)) && |e.value.drawn| <= |Members(sem)|
    ensures var e := Evaluation(c, sem, rand, s0, k, fuel);
            sem.domainValue.Enumerable? && (forall t :: t in Members(sem) ==> Rejects(c, sem, t)) ==>
              e.Some? && ResultForNone(c, sem, e.value.state) && Completed(c, s0, e.value.state) &&
              multiset(e.value.drawn) == multiset(Members(sem)) && |e.value.drawn| == |Members(sem)|
  {
    var k1, fuel1 := k + 1, fuel - 1;
    FreshStarts(c, sem, rand, s0, k, fuel);
    StartedEnds(c, sem, rand, s0, k1, fuel1);
    var e := Evaluation(c, sem, rand, s0, k, fuel);
    SubMultisetSize(multiset(e.value.drawn), multiset(Members(sem)));
    if sem.domainValue.Enumerable? && forall t :: t in Members(sem) ==> Rejects(c, sem, t) {
      AllRejectedStarted(c, sem, rand, s0, k1, fuel1);
      SubMultisetSame(multiset(e.value.drawn), multiset(Members(sem)));
    }
  }
}
