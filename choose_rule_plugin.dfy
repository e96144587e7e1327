/**
 * The choose/pick interpreter plugin as objects: the node with its children and
 * result, the interpreter's environment, and the plugin's map of remaining
 * candidates. Every handler makes one unit of progress in place and is proved to
 * do exactly what the matching function of ChooseSemantics says.
 */
module ChooseRule {
  import opened Wrappers
  import opened ChooseSemantics

  /** A `ChooseRuleNode` or `PickExpNode` (or any other node) with its evaluation state. */
  class ASTNode {
    const kind: NodeKind
    const variable: string
    /** identity of the domain child: the key of the remaining-candidates map */
    const domainId: nat
    /** `getCondition() != null` */
    const hasGuard: bool
    /** `getIfnoneRule() != null` */
    const hasIfnone: bool

    var domain: Child
    var guard: Child
    var doRule: Child
    var ifnone: Child

    var evaluated: bool
    var value: Option<Element>
    var updates: Option<multiset<Update>>

    constructor (kind: NodeKind, variable: string, domainId: nat, hasGuard: bool, hasIfnone: bool)
      ensures Cfg() == Config(kind, variable, domainId, hasGuard, hasIfnone)
      ensures domain == guard == doRule == ifnone == Child(false, Undef, multiset{})
      ensures !evaluated && value == None && updates == None
    {
      this.kind, this.variable, this.domainId := kind, variable, domainId;
      this.hasGuard, this.hasIfnone := hasGuard, hasIfnone;
      domain, guard := Child(false, Undef, multiset{}), Child(false, Undef, multiset{});
      doRule, ifnone := Child(false, Undef, multiset{}), Child(false, Undef, multiset{});
      evaluated, value, updates := false, None, None;
    }

    function Cfg(): Config
    {
      Config(kind, variable, domainId, hasGuard, hasIfnone)
    }

    /** `setNode(null, updates, value)` */
    method SetNode(updates: Option<multiset<Update>>, value: Option<Element>)
      modifies this
      ensures this.evaluated && this.updates == updates && this.value == value
      ensures domain == old(domain) && guard == old(guard) && doRule == old(doRule) && ifnone == old(ifnone)
    {
      this.evaluated, this.updates, this.value := true, updates, value;
    }
  }

  /** The part of the interpreter the handlers use: the environment of bound names. */
  class Interpreter {
    var env: Env

    constructor (env: Env)
      ensures this.env == env
    {
      this.env := env;
    }

    method AddEnv(x: string, v: Element)
      modifies this
      ensures env == EnvAdd(old(env), x, v)
    {
      env := EnvAdd(env, x, v);
    }

    method RemoveEnv(x: string)
      modifies this
      ensures env == EnvRemove(old(env), x)
    {
      env := EnvRemove(env, x);
    }

    method GetEnv(x: string) returns (v: Element)
      ensures v == EnvGet(env, x)
    {
      v := EnvGet(env, x);
    }
  }

  /** The state of the plugin, the interpreter and the node, as one value. */
  ghost function StateOf(p: ChooseRulePlugin, interp: Interpreter, node: ASTNode): State
    reads p, interp, node
  {
    State(node.domain, node.guard, node.doRule, node.ifnone,
          node.evaluated, node.value, node.updates,
          interp.env, p.remained, p.errors)
  }

  class ChooseRulePlugin {
    /** remaining candidates per domain node (the source keeps one map per thread) */
    var remained: map<nat, seq<Element>>
    /** the errors reported through `capi.error` */
    var errors: seq<SpecError>

    /** `initialize()` */
    constructor ()
      ensures remained == map[] && errors == []
    {
      remained, errors := map[], [];
    }

    method Error(e: SpecError)
      modifies this
      ensures errors == old(errors) + [e] && remained == old(remained)
    {
      errors := errors + [e];
    }

    /**
     * The candidate list of a guarded form: the remaining list kept for the domain,
     * or else (a copy of) the domain's enumeration.
     */
    method CandidateList(interp: Interpreter, node: ASTNode) returns (s: seq<Element>)
      requires node.hasGuard && node.domain.value.Enumerable?
      ensures s == Candidates(node.Cfg(), StateOf(this, interp, node))
    {
      if node.domainId in remained {
        s := remained[node.domainId];
      } else {
        s := node.domain.value.members;
      }
    }

    /**
     * Draw a random candidate from the non-empty list `s`, bind x to it and keep the
     * list without it as the domain's remaining candidates.
     */
    method DrawCandidate(interp: Interpreter, node: ASTNode, s: seq<Element>) returns (ghost draw: nat)
      requires node.hasGuard && s == Candidates(node.Cfg(), StateOf(this, interp, node)) && |s| > 0
      modifies this, interp
      ensures draw < |s|
      ensures StateOf(this, interp, node) == Draw(node.Cfg(), old(StateOf(this, interp, node)), draw)
    {
      var i :| 0 <= i < |s|;  // Tools.randInt(list.size())
      draw := i;
      interp.AddEnv(node.variable, s[i]);
      remained := remained[node.domainId := RemoveAt(s, i)];
    }

    /** A false guard: clear the guard, unbind x. */
    method RejectCandidate(interp: Interpreter, node: ASTNode)
      modifies interp, node
      ensures StateOf(this, interp, node) == Reject(node.Cfg(), old(StateOf(this, interp, node)))
    {
      node.guard := node.guard.(evaluated := false);  // clearTree(gamma)
      interp.RemoveEnv(node.variable);
    }

    /** `interpret`: dispatch on the node's kind and on which optional parts it has. */
    method Interpret(interp: Interpreter, pos: ASTNode) returns (next: Next, ghost draw: nat)
      modifies this, interp, pos
      ensures DrawInRange(pos.Cfg(), old(StateOf(this, interp, pos)), draw)
      ensures (StateOf(this, interp, pos), next) == ChooseSemantics.Interpret(pos.Cfg(), old(StateOf(this, interp, pos)), draw)
    {
      if pos.kind == ChooseRuleNode {
        if !pos.hasGuard && !pos.hasIfnone {
          next, draw := InterpretChooseRuleNoConditionNoIfnone(interp, pos);
          return;
        }
        if !pos.hasGuard && pos.hasIfnone {
          next, draw := InterpretChooseRuleNoConditionWithIfnone(interp, pos);
          return;
        }
        if pos.hasGuard && !pos.hasIfnone {
          next, draw := InterpretChooseRuleWithConditionNoIfnone(interp, pos);
          return;
        }
        next, draw := InterpretChooseRuleWithConditionWithIfnone(interp, pos);
        return;
      } else if pos.kind == PickExpNode {
        if !pos.hasGuard {
          next, draw := InterpretPickExpressionNoCondition(interp, pos);
        } else {
          next, draw := InterpretPickExpressionWithCondition(interp, pos);
        }
        return;
      }
      next, draw := Self, 0;
    }

    method InterpretPickExpressionNoCondition(interp: Interpreter, node: ASTNode) returns (next: Next, ghost draw: nat)
      requires !node.hasGuard
      modifies this, interp, node
      ensures DrawInRange(node.Cfg(), old(StateOf(this, interp, node)), draw)
      ensures (StateOf(this, interp, node), next) == PickNoCondition(node.Cfg(), old(StateOf(this, interp, node)), draw)
    {
      draw := 0;
      if !node.domain.evaluated {
        return Domain, draw;
      } else if node.domain.value.Enumerable? {
        var elements := node.domain.value.members;
        if |elements| > 0 {
          var i :| 0 <= i < |elements|;
          draw := i;
          node.SetNode(None, Some(elements[i]));
        } else {
          node.SetNode(None, Some(Undef));
        }
      } else {
        Error(CannotPick(node.domain.value));
      }
      next := Self;
    }

    method InterpretPickExpressionWithCondition(interp: Interpreter, node: ASTNode) returns (next: Next, ghost draw: nat)
      requires node.hasGuard
      modifies this, interp, node
      ensures DrawInRange(node.Cfg(), old(StateOf(this, interp, node)), draw)
      ensures (StateOf(this, interp, node), next) == PickWithCondition(node.Cfg(), old(StateOf(this, interp, node)), draw)
    {
      if !node.domain.evaluated {
        remained := remained - {node.domainId};  // considered(beta) := {}
        next, draw := Domain, 0;
      } else if !node.guard.evaluated {
        next, draw := PickNextCandidate(interp, node);
      } else {
        next := PickOnCondition(interp, node);
        draw := 0;
      }
    }

    /** Domain evaluated, condition not: bind the next candidate, or yield UNDEF when none is left. */
    method PickNextCandidate(interp: Interpreter, node: ASTNode) returns (next: Next, ghost draw: nat)
      requires node.hasGuard && node.domain.evaluated && !node.guard.evaluated
      modifies this, interp, node
      ensures DrawInRange(node.Cfg(), old(StateOf(this, interp, node)), draw)
      ensures (StateOf(this, interp, node), next) == PickWithCondition(node.Cfg(), old(StateOf(this, interp, node)), draw)
    {
      draw := 0;
      if node.domain.value.Enumerable? {
        var s := CandidateList(interp, node);
        if |s| > 0 {
          draw := DrawCandidate(interp, node, s);
          next := Guard;
        } else {
          remained := remained - {node.domainId};
          node.SetNode(None, Some(Undef));
          next := Self;
        }
      } else {
        Error(CannotPick(node.domain.value));
        next := Self;
      }
    }

    /** Domain and condition evaluated: yield the bound value, or unbind and retry. */
    method PickOnCondition(interp: Interpreter, node: ASTNode) returns (next: Next)
      requires node.hasGuard && node.domain.evaluated && node.guard.evaluated
      modifies this, interp, node
      ensures (StateOf(this, interp, node), next) == PickWithCondition(node.Cfg(), old(StateOf(this, interp, node)), 0)
    {
      if !node.guard.value.BooleanElement? {
        Error(PickConditionNotBoolean(node.guard.value));
        return Self;
      }
      if node.guard.value.b {
        var picked := interp.GetEnv(node.variable);
        interp.RemoveEnv(node.variable);
        remained := remained - {node.domainId};
        node.SetNode(None, Some(picked));
        next := Self;
      } else {
        RejectCandidate(interp, node);
        next := Domain;
      }
    }

    method InterpretChooseRuleNoConditionNoIfnone(interp: Interpreter, node: ASTNode) returns (next: Next, ghost draw: nat)
      requires !node.hasGuard
      modifies this, interp, node
      ensures DrawInRange(node.Cfg(), old(StateOf(this, interp, node)), draw)
      ensures (StateOf(this, interp, node), next) == ChooseNoConditionNoIfnone(node.Cfg(), old(StateOf(this, interp, node)), draw)
    {
      draw := 0;
      var x := node.variable;
      if !node.domain.evaluated {
        return Domain, draw;
      } else if !node.doRule.evaluated {
        if node.domain.value.Enumerable? {
          var s := node.domain.value.members;
          if |s| > 0 {
            var i :| 0 <= i < |s|;
            draw := i;
            interp.AddEnv(x, s[i]);
            return DoRule, draw;
          } else {
            node.SetNode(Some(multiset{}), None);
            return Self, draw;
          }
        } else {
          Error(CannotChoose(node.domain.value));
        }
      } else {
        interp.RemoveEnv(x);
        node.SetNode(Some(node.doRule.updates), None);
        return Self, draw;
      }
      next := Self;
    }

    method InterpretChooseRuleNoConditionWithIfnone(interp: Interpreter, node: ASTNode) returns (next: Next, ghost draw: nat)
      requires !node.hasGuard
      modifies this, interp, node
      ensures DrawInRange(node.Cfg(), old(StateOf(this, interp, node)), draw)
      ensures (StateOf(this, interp, node), next) == ChooseNoConditionWithIfnone(node.Cfg(), old(StateOf(this, interp, node)), draw)
    {
      draw := 0;
      var x := node.variable;
      if !node.domain.evaluated {
        return Domain, draw;
      } else if !node.doRule.evaluated && !node.ifnone.evaluated {
        if node.domain.value.Enumerable? {
          var s := node.domain.value.members;
          if |s| > 0 {
            var i :| 0 <= i < |s|;
            draw := i;
            interp.AddEnv(x, s[i]);
            return DoRule, draw;
          } else {
            return Ifnone, draw;
          }
        } else {
          Error(CannotChoose(node.domain.value));
        }
      } else if node.doRule.evaluated {
        interp.RemoveEnv(x);
        node.SetNode(Some(node.doRule.updates), None);
        return Self, draw;
      } else {
        node.SetNode(Some(node.ifnone.updates), None);
        return Self, draw;
      }
      next := Self;
    }

    method InterpretChooseRuleWithConditionNoIfnone(interp: Interpreter, node: ASTNode) returns (next: Next, ghost draw: nat)
      requires node.hasGuard
      modifies this, interp, node
      ensures DrawInRange(node.Cfg(), old(StateOf(this, interp, node)), draw)
      ensures (StateOf(this, interp, node), next) == ChooseWithConditionNoIfnone(node.Cfg(), old(StateOf(this, interp, node)), draw)
    {
      if !node.domain.evaluated {
        remained := remained - {node.domainId};  // considered(beta) := {}
        next, draw := Domain, 0;
      } else if !node.guard.evaluated {
        next, draw := ChooseNextCandidate(interp, node);
      } else if !node.doRule.evaluated {
        next := ChooseOnCondition(interp, node);
        draw := 0;
      } else {
        interp.RemoveEnv(node.variable);
        remained := remained - {node.domainId};
        node.SetNode(Some(node.doRule.updates), None);
        next, draw := Self, 0;
      }
    }

    /** Domain evaluated, condition not: bind the next candidate, or yield no updates when none is left. */
    method ChooseNextCandidate(interp: Interpreter, node: ASTNode) returns (next: Next, ghost draw: nat)
      requires node.hasGuard && node.domain.evaluated && !node.guard.evaluated
      modifies this, interp, node
      ensures DrawInRange(node.Cfg(), old(StateOf(this, interp, node)), draw)
      ensures (StateOf(this, interp, node), next) == ChooseWithConditionNoIfnone(node.Cfg(), old(StateOf(this, interp, node)), draw)
    {
      draw := 0;
      if node.domain.value.Enumerable? {
        var s := CandidateList(interp, node);
        if |s| > 0 {
          draw := DrawCandidate(interp, node, s);
          next := Guard;
        } else {
          remained := remained - {node.domainId};
          node.SetNode(Some(multiset{}), None);
          next := Self;
        }
      } else {
        Error(CannotChoose(node.domain.value));
        next := Self;
      }
    }

    /** Condition evaluated, do-rule not: go on to the do-rule, or unbind and retry. */
    method ChooseOnCondition(interp: Interpreter, node: ASTNode) returns (next: Next)
      requires node.hasGuard && node.domain.evaluated && node.guard.evaluated && !node.doRule.evaluated
      modifies this, interp, node
      ensures (StateOf(this, interp, node), next) == ChooseWithConditionNoIfnone(node.Cfg(), old(StateOf(this, interp, node)), 0)
    {
      if !node.guard.value.BooleanElement? {
        Error(ChooseConditionNotBoolean(node.guard.value));
        next := Self;
      } else if node.guard.value.b {
        next := DoRule;
      } else {
        RejectCandidate(interp, node);
        next := Domain;
      }
    }

    method InterpretChooseRuleWithConditionWithIfnone(interp: Interpreter, node: ASTNode) returns (next: Next, ghost draw: nat)
      requires node.hasGuard
      modifies this, interp, node
      ensures DrawInRange(node.Cfg(), old(StateOf(this, interp, node)), draw)
      ensures (StateOf(this, interp, node), next) == ChooseWithConditionWithIfnone(node.Cfg(), old(StateOf(this, interp, node)), draw)
    {
      draw := 0;
      if !node.domain.evaluated {
        remained := remained - {node.domainId};  // considered(beta) := {}
        next := Domain;
      } else if !node.guard.evaluated && !node.ifnone.evaluated {
        next, draw := ChooseOrIfnoneNextCandidate(interp, node);
      } else if node.guard.evaluated && !node.doRule.evaluated && !node.ifnone.evaluated {
        next := ChooseOrIfnoneOnCondition(interp, node);
      } else if node.guard.evaluated && node.doRule.evaluated {
        interp.RemoveEnv(node.variable);
        remained := remained - {node.domainId};
        node.SetNode(Some(node.doRule.updates), None);
        next := Self;
      } else if node.ifnone.evaluated {
        remained := remained - {node.domainId};
        node.SetNode(Some(node.ifnone.updates), None);
        next := Self;
      } else {
        next := Self;
      }
    }

    /** Domain evaluated, neither condition nor ifnone-rule: bind the next candidate, or go to the ifnone-rule. */
    method ChooseOrIfnoneNextCandidate(interp: Interpreter, node: ASTNode) returns (next: Next, ghost draw: nat)
      requires node.hasGuard && node.domain.evaluated && !node.guard.evaluated && !node.ifnone.evaluated
      modifies this, interp, node
      ensures DrawInRange(node.Cfg(), old(StateOf(this, interp, node)), draw)
      ensures (StateOf(this, interp, node), next) == ChooseWithConditionWithIfnone(node.Cfg(), old(StateOf(this, interp, node)), draw)
    {
      draw := 0;
      if node.domain.value.Enumerable? {
        var s := CandidateList(interp, node);
        if |s| > 0 {
          draw := DrawCandidate(interp, node, s);
          next := Guard;
        } else {
          remained := remained[node.domainId := s];  // the empty list stays until the ifnone-rule is done
          next := Ifnone;
        }
      } else {
        Error(CannotChoose(node.domain.value));
        next := Self;
      }
    }

    /** Condition evaluated, neither rule: go on to the do-rule, or unbind and retry. */
    method ChooseOrIfnoneOnCondition(interp: Interpreter, node: ASTNode) returns (next: Next)
      requires node.hasGuard && node.domain.evaluated && node.guard.evaluated
      requires !node.doRule.evaluated && !node.ifnone.evaluated
      modifies this, interp, node
      ensures (StateOf(this, interp, node), next) == ChooseWithConditionWithIfnone(node.Cfg(), old(StateOf(this, interp, node)), 0)
    {
      if !node.guard.value.BooleanElement? {
        Error(ChooseConditionNotBoolean(node.guard.value));
        next := Self;
      } else if node.guard.value.b {
        next := DoRule;
      } else {
        RejectCandidate(interp, node);
        next := Domain;
      }
    }
  }
}
