/**
 * The evaluation state that one call of the choose/pick interpreter handler
 * reads and writes, and one function per handler saying what a single call does.
 *
 * A call makes one unit of progress on a `choose x in E [with C] do R [ifnone R2]`
 * rule node or a `pick x in E [with C]` expression node and returns either the
 * child the interpreter has to evaluate next or the node itself.
 */
module ChooseSemantics {
  import opened Wrappers

  /** The values the handlers inspect: Boolean, enumerable and all others. */
  datatype Element =
    | Undef
    | BooleanElement(b: bool)
    | Enumerable(members: seq<Element>)
    | Other(id: int)

  datatype Update = Update(location: string, value: Element)

  /** The evaluation state of one child node (domain, guard, do-rule or ifnone-rule). */
  datatype Child = Child(evaluated: bool, value: Element, updates: multiset<Update>)

  /** What a handler call returns: a child to evaluate next, or the node itself. */
  datatype Next = Domain | Guard | DoRule | Ifnone | Self

  datatype NodeKind = ChooseRuleNode | PickExpNode | OtherNode

  /** The specification errors the handlers report through the control API. */
  datatype SpecError =
    | CannotChoose(domain: Element)
    | CannotPick(domain: Element)
    | ChooseConditionNotBoolean(condition: Element)
    | PickConditionNotBoolean(condition: Element)

  /** The interpreter environment: for every bound name, its stack of bindings (top last). */
  type Stack = s: seq<Element> | |s| > 0 witness [Undef]
  type Env = map<string, Stack>

  /** `addEnv`: push a binding of `x`. */
  function EnvAdd(env: Env, x: string, v: Element): (r: Env)
    ensures r.Keys == env.Keys + {x}
    ensures forall y :: y in env && y != x ==> r[y] == env[y]
    ensures EnvGet(r, x) == v
  {
    env[x := (if x in env then env[x] else []) + [v]]
  }

  /** `getEnv`: the innermost binding of `x`; an unbound name reads as UNDEF. */
  function EnvGet(env: Env, x: string): Element
  {
    if x in env then env[x][|env[x]| - 1] else Undef
  }

  /** `removeEnv`: pop the innermost binding of `x`. */
  function EnvRemove(env: Env, x: string): Env
  {
    if x !in env then env
    else if |env[x]| == 1 then env - {x}
    else env[x := env[x][..|env[x]| - 1]]
  }

  /** Popping what was just pushed gives back the environment exactly. */
  lemma EnvRemoveAdd(env: Env, x: string, v: Element)
    ensures EnvRemove(EnvAdd(env, x, v), x) == env
  {
    var r := EnvRemove(EnvAdd(env, x, v), x);
    if x in env {
      assert r[x] == env[x];
    }
    assert r.Keys == env.Keys;
  }

  /** The static shape of a node: its kind, bound variable, domain identity and optional parts. */
  datatype Config = Config(kind: NodeKind, variable: string, domainId: nat, hasGuard: bool, hasIfnone: bool)

  /**
   * Everything a handler call reads or writes: the node's children and its own
   * result, the interpreter environment, the plugin's map of remaining
   * candidates (keyed by domain node) and the reported errors.
   */
  datatype State = State(
    domain: Child,
    guard: Child,
    doRule: Child,
    ifnone: Child,
    evaluated: bool,
    value: Option<Element>,
    updates: Option<multiset<Update>>,
    env: Env,
    remained: map<nat, seq<Element>>,
    errors: seq<SpecError>)

  /** `setNode(null, updates, value)`: the node gets its result and counts as evaluated. */
  function SetNode(s: State, updates: Option<multiset<Update>>, value: Option<Element>): State
  {
    s.(evaluated := true, updates := updates, value := value)
  }

  /** `capi.error`: the error is reported, the node's result stays unset. */
  function Report(s: State, e: SpecError): State
  {
    s.(errors := s.errors + [e])
  }

  /**
   * The list a draw is made from: for guarded forms, the remaining list kept for
   * this domain if there is one, otherwise the domain's enumeration.
   */
  function Candidates(c: Config, s: State): seq<Element>
  {
    if !s.domain.value.Enumerable? then []
    else if c.hasGuard && c.domainId in s.remained then s.remained[c.domainId]
    else s.domain.value.members
  }

  /** `Tools.randInt(n)` yields `0 <= i < n`; the draw index `i` stands for it. */
  predicate DrawInRange(c: Config, s: State, i: nat)
  {
    |Candidates(c, s)| == 0 || i < |Candidates(c, s)|
  }

  /** `List.remove(i)`: drop index `i`, keeping the order of the others. */
  function RemoveAt(list: seq<Element>, i: nat): (r: seq<Element>)
    requires i < |list|
    ensures |r| == |list| - 1
    ensures multiset(r) + multiset{list[i]} == multiset(list)
    ensures forall k :: 0 <= k < |r| ==> r[k] == if k < i then list[k] else list[k + 1]
  {
    assert list == list[..i] + [list[i]] + list[i + 1..];
    list[..i] + list[i + 1..]
  }

  /**
   * A guarded draw: bind x to candidate `i` of the list and keep the list without
   * it as this domain's remaining candidates.
   */
  function Draw(c: Config, s: State, i: nat): State
    requires i < |Candidates(c, s)|
  {
    var list := Candidates(c, s);
    s.(env := EnvAdd(s.env, c.variable, list[i]), remained := s.remained[c.domainId := RemoveAt(list, i)])
  }

  /** A false guard: `clearTree` on the guard and `removeEnv(x)`, ready for the next draw. */
  function Reject(c: Config, s: State): State
  {
    s.(guard := s.guard.(evaluated := false), env := EnvRemove(s.env, c.variable))
  }

  /** `interpretPickExpression_NoCondition` */
  function PickNoCondition(c: Config, s: State, i: nat): (State, Next)
    requires !c.hasGuard && DrawInRange(c, s, i)
  {
    if !s.domain.evaluated then (s, Domain)
    else if s.domain.value.Enumerable? then
      var elements := s.domain.value.members;
      if |elements| > 0 then (SetNode(s, None, Some(elements[i])), Self)
      else (SetNode(s, None, Some(Undef)), Self)
    else (Report(s, CannotPick(s.domain.value)), Self)
  }

  /** `interpretPickExpression_WithCondition` */
  function PickWithCondition(c: Config, s: State, i: nat): (State, Next)
    requires c.hasGuard && DrawInRange(c, s, i)
  {
    var id, x := c.domainId, c.variable;
    if !s.domain.evaluated then (s.(remained := s.remained - {id}), Domain)
    else if !s.guard.evaluated then
      if s.domain.value.Enumerable? then
        var list := Candidates(c, s);
        if |list| > 0 then
          (Draw(c, s, i), Guard)
        else
          (SetNode(s.(remained := s.remained - {id}), None, Some(Undef)), Self)
      else (Report(s, CannotPick(s.domain.value)), Self)
    else if s.guard.value.BooleanElement? then
      if s.guard.value.b then
        (SetNode(s.(env := EnvRemove(s.env, x), remained := s.remained - {id}), None, Some(EnvGet(s.env, x))), Self)
      else
        (Reject(c, s), Domain)
    else (Report(s, PickConditionNotBoolean(s.guard.value)), Self)
  }

  /** `interpretChooseRule_NoCondition_NoIfnone`: choose x in E do R */
  function ChooseNoConditionNoIfnone(c: Config, s: State, i: nat): (State, Next)
    requires !c.hasGuard && DrawInRange(c, s, i)
  {
    var x := c.variable;
    if !s.domain.evaluated then (s, Domain)
    else if !s.doRule.evaluated then
      if s.domain.value.Enumerable? then
        var list := s.domain.value.members;
        if |list| > 0 then (s.(env := EnvAdd(s.env, x, list[i])), DoRule)
        else (SetNode(s, Some(multiset{}), None), Self)
      else (Report(s, CannotChoose(s.domain.value)), Self)
    else (SetNode(s.(env := EnvRemove(s.env, x)), Some(s.doRule.updates), None), Self)
  }

  /** `interpretChooseRule_NoCondition_WithIfnone`: choose x in E do R1 ifnone R2 */
  function ChooseNoConditionWithIfnone(c: Config, s: State, i: nat): (State, Next)
    requires !c.hasGuard && DrawInRange(c, s, i)
  {
    var x := c.variable;
    if !s.domain.evaluated then (s, Domain)
    else if !s.doRule.evaluated && !s.ifnone.evaluated then
      if s.domain.value.Enumerable? then
        var list := s.domain.value.members;
        if |list| > 0 then (s.(env := EnvAdd(s.env, x, list[i])), DoRule)
        else (s, Ifnone)
      else (Report(s, CannotChoose(s.domain.value)), Self)
    else if s.doRule.evaluated then
      (SetNode(s.(env := EnvRemove(s.env, x)), Some(s.doRule.updates), None), Self)
    else (SetNode(s, Some(s.ifnone.updates), None), Self)
  }

  /** `interpretChooseRule_WithCondition_NoIfnone`: choose x in E with C do R */
  function ChooseWithConditionNoIfnone(c: Config, s: State, i: nat): (State, Next)
    requires c.hasGuard && DrawInRange(c, s, i)
  {
    var id, x := c.domainId, c.variable;
    if !s.domain.evaluated then (s.(remained := s.remained - {id}), Domain)
    else if !s.guard.evaluated then
      if s.domain.value.Enumerable? then
        var list := Candidates(c, s);
        if |list| > 0 then
          (Draw(c, s, i), Guard)
        else
          (SetNode(s.(remained := s.remained - {id}), Some(multiset{}), None), Self)
      else (Report(s, CannotChoose(s.domain.value)), Self)
    else if !s.doRule.evaluated then
      if s.guard.value.BooleanElement? then
        if s.guard.value.b then (s, DoRule)
        else (Reject(c, s), Domain)
      else (Report(s, ChooseConditionNotBoolean(s.guard.value)), Self)
    else
      (SetNode(s.(env := EnvRemove(s.env, x), remained := s.remained - {id}), Some(s.doRule.updates), None), Self)
  }

  /** `interpretChooseRule_WithCondition_WithIfnone`: choose x in E with C do R1 ifnone R2 */
  function ChooseWithConditionWithIfnone(c: Config, s: State, i: nat): (State, Next)
    requires c.hasGuard && DrawInRange(c, s, i)
  {
    var id, x := c.domainId, c.variable;
    if !s.domain.evaluated then (s.(remained := s.remained - {id}), Domain)
    else if !s.guard.evaluated && !s.ifnone.evaluated then
      if s.domain.value.Enumerable? then
        var list := Candidates(c, s);
        if |list| > 0 then
          (Draw(c, s, i), Guard)
        else
          (s.(remained := s.remained[id := list]), Ifnone)
      else (Report(s, CannotChoose(s.domain.value)), Self)
    else if s.guard.evaluated && !s.doRule.evaluated && !s.ifnone.evaluated then
      if s.guard.value.BooleanElement? then
        if s.guard.value.b then (s, DoRule)
        else (Reject(c, s), Domain)
      else (Report(s, ChooseConditionNotBoolean(s.guard.value)), Self)
    else if s.guard.evaluated && s.doRule.evaluated then
      (SetNode(s.(env := EnvRemove(s.env, x), remained := s.remained - {id}), Some(s.doRule.updates), None), Self)
    else if s.ifnone.evaluated then
      (SetNode(s.(remained := s.remained - {id}), Some(s.ifnone.updates), None), Self)
    else (s, Self)
  }

  /**
   * `interpret`: choose nodes are dispatched on whether a guard and an ifnone
   * rule are present, pick nodes on whether a guard is present; any other node
   * is returned as it is.
   */
  function Interpret(c: Config, s: State, i: nat): (r: (State, Next))
    requires DrawInRange(c, s, i)
    ensures c.kind == OtherNode ==> r == (s, Self)
  {
    match c.kind
    case ChooseRuleNode =>
      if !c.hasGuard && !c.hasIfnone then ChooseNoConditionNoIfnone(c, s, i)
      else if !c.hasGuard && c.hasIfnone then ChooseNoConditionWithIfnone(c, s, i)
      else if c.hasGuard && !c.hasIfnone then ChooseWithConditionNoIfnone(c, s, i)
      else ChooseWithConditionWithIfnone(c, s, i)
    case PickExpNode =>
      if !c.hasGuard then PickNoCondition(c, s, i) else PickWithCondition(c, s, i)
    case OtherNode => (s, Self)
  }

  /** The handlers never touch the domain, the do-rule or the ifnone-rule child. */
  lemma InterpretKeepsChildren(c: Config, s: State, i: nat)
    requires DrawInRange(c, s, i)
    ensures var r := Interpret(c, s, i);
            r.0.domain == s.domain && r.0.doRule == s.doRule && r.0.ifnone == s.ifnone
  {
    if c.kind == ChooseRuleNode && !c.hasGuard && c.hasIfnone {
      assert Interpret(c, s, i) == ChooseNoConditionWithIfnone(c, s, i);
    } else if c.kind == ChooseRuleNode && !c.hasGuard {
      assert Interpret(c, s, i) == ChooseNoConditionNoIfnone(c, s, i);
    } else if c.kind == ChooseRuleNode && !c.hasIfnone {
      assert Interpret(c, s, i) == ChooseWithConditionNoIfnone(c, s, i);
    } else if c.kind == ChooseRuleNode {
      assert Interpret(c, s, i) == ChooseWithConditionWithIfnone(c, s, i);
    } else if c.kind == PickExpNode && !c.hasGuard {
      assert Interpret(c, s, i) == PickNoCondition(c, s, i);
    } else if c.kind == PickExpNode {
      assert Interpret(c, s, i) == PickWithCondition(c, s, i);
    }
  }

  /**
   * While the domain is unevaluated it is evaluated first, and the guarded forms
   * drop the remaining list kept for it, so a fresh domain starts from all candidates.
   */
  lemma DomainFirst(c: Config, s: State, i: nat)
    requires DrawInRange(c, s, i) && c.kind != OtherNode && !s.domain.evaluated
    ensures var r := Interpret(c, s, i);
            r.1 == Domain && r.0.env == s.env && r.0.evaluated == s.evaluated &&
            (c.hasGuard ==> c.domainId !in r.0.remained) &&
            (!c.hasGuard ==> r.0.remained == s.remained)
  {
  }

  /** A guarded draw binds x to a candidate and removes exactly that one from the list. */
  lemma GuardedDrawShrinks(c: Config, s: State, i: nat)
    requires DrawInRange(c, s, i) && c.kind != OtherNode && c.hasGuard
    requires Interpret(c, s, i).1 == Guard
    ensures var r := Interpret(c, s, i);
            |Candidates(c, s)| > 0 && c.domainId in r.0.remained &&
            |r.0.remained[c.domainId]| == |Candidates(c, s)| - 1 &&
            multiset(r.0.remained[c.domainId]) + multiset{EnvGet(r.0.env, c.variable)} == multiset(Candidates(c, s))
  {
  }

  /** A call reports at most one error, and a call that reports one returns the node without a result. */
  lemma AtMostOneError(c: Config, s: State, i: nat)
    requires DrawInRange(c, s, i)
    ensures var r := Interpret(c, s, i);
            r.0.errors == s.errors ||
            (|r.0.errors| == |s.errors| + 1 && r.0.errors[..|s.errors|] == s.errors &&
             r.1 == Self && r.0.evaluated == s.evaluated)
  {
    if c.kind == ChooseRuleNode && !c.hasGuard {
      assert Interpret(c, s, i) == if c.hasIfnone then ChooseNoConditionWithIfnone(c, s, i) else ChooseNoConditionNoIfnone(c, s, i);
    } else if c.kind == ChooseRuleNode && !c.hasIfnone {
      assert Interpret(c, s, i) == ChooseWithConditionNoIfnone(c, s, i);
    } else if c.kind == ChooseRuleNode {
      assert Interpret(c, s, i) == ChooseWithConditionWithIfnone(c, s, i);
    } else if c.kind == PickExpNode && !c.hasGuard {
      assert Interpret(c, s, i) == PickNoCondition(c, s, i);
    } else if c.kind == PickExpNode {
      assert Interpret(c, s, i) == PickWithCondition(c, s, i);
    }
  }
}
