/**
 * The parse map that builds a choose rule node from the parsed parts of
 * `choose x in E [with C] do R [ifnone R2] [endchoose]`: every AST part becomes
 * a child named after the keyword that last preceded it ("alpha" before any),
 * every token becomes an unnamed child.
 */
module ChooseParse {
  import opened Wrappers

  /** A parsed part handed to the parse map: an AST node, or a token node. */
  datatype ParseItem = AstItem(id: nat) | TokenItem(token: string)

  /** A child as added to the rule node: AST parts carry a name, tokens none. */
  datatype NamedChild = NamedChild(name: Option<string>, item: ParseItem)

  const Alpha: string := "alpha"
  const GuardName: string := "guard"
  const DoRuleName: string := "dorule"
  const IfnoneRuleName: string := "ifnonerule"

  /** The child name a keyword token switches to: `with`, `do` and `ifnone` do, other tokens do not. */
  function Switch(token: string): (r: Option<string>)
    ensures r.Some? <==> token in {"with", "do", "ifnone"}
  {
    if token == "with" then Some(GuardName)
    else if token == "do" then Some(DoRuleName)
    else if token == "ifnone" then Some(IfnoneRuleName)
    else None
  }

  predicate Switching(item: ParseItem)
  {
    item.TokenItem? && Switch(item.token).Some?
  }

  /** The name in effect after one part: a switching token replaces it, anything else keeps it. */
  function NameAfterItem(name: string, item: ParseItem): string
  {
    if Switching(item) then Switch(item.token).value else name
  }

  /** The name in effect after the parts, starting from `name`. */
  function NameAfter(name: string, items: seq<ParseItem>): string
    decreases |items|
  {
    if |items| == 0 then name
    else NameAfterItem(NameAfter(name, items[..|items| - 1]), items[|items| - 1])
  }

  /** The child one part becomes when `name` is in effect. */
  function ChildFor(name: string, item: ParseItem): NamedChild
  {
    if item.AstItem? then NamedChild(Some(name), item) else NamedChild(None, item)
  }

  /** The children the parts become, in order. */
  function Children(name: string, items: seq<ParseItem>): seq<NamedChild>
    decreases |items|
  {
    if |items| == 0 then []
    else Children(name, items[..|items| - 1]) + [ChildFor(NameAfter(name, items[..|items| - 1]), items[|items| - 1])]
  }

  /**
   * Every part becomes exactly one child, in order; an AST part is named by the
   * name in effect after the parts before it, a token is unnamed.
   */
  lemma {:induction false} ChildrenShape(name: string, items: seq<ParseItem>)
    ensures |Children(name, items)| == |items|
    ensures forall k :: 0 <= k < |items| ==>
              Children(name, items)[k].item == items[k] &&
              Children(name, items)[k].name == (if items[k].AstItem? then Some(NameAfter(name, items[..k])) else None)
    decreases |items|
  {
    if |items| > 0 {
      var n := |items| - 1;
      ChildrenShape(name, items[..n]);
      forall k | 0 <= k < n
        ensures items[..n][..k] == items[..k]
      {
      }
    }
  }

  /** Without a switching keyword the name stays what it was. */
  lemma {:induction false} NoKeywordKeepsName(name: string, items: seq<ParseItem>)
    requires forall k :: 0 <= k < |items| ==> !Switching(items[k])
    ensures NameAfter(name, items) == name
    decreases |items|
  {
    if |items| > 0 {
      NoKeywordKeepsName(name, items[..|items| - 1]);
    }
  }

  /** The name in effect is the one the last switching keyword gives, whatever came before it. */
  lemma {:induction false} LastKeywordNames(name: string, items: seq<ParseItem>, k: nat)
    requires k < |items| && Switching(items[k])
    requires forall j :: k < j < |items| ==> !Switching(items[j])
    ensures NameAfter(name, items) == Switch(items[k].token).value
    decreases |items|
  {
    if k < |items| - 1 {
      LastKeywordNames(name, items[..|items| - 1], k);
    }
  }

  /** The node the parse map builds; it collects its children in order. */
  class RuleNode {
    var children: seq<NamedChild>

    constructor ()
      ensures children == []
    {
      children := [];
    }

    /** `addChild(name, child)` and `addChild(child)` */
    method AddChild(name: Option<string>, item: ParseItem)
      modifies this
      ensures children == old(children) + [NamedChild(name, item)]
    {
      children := children + [NamedChild(name, item)];
    }
  }

  class ChooseParseMap {
    /** the name the next AST child gets */
    var nextChildName: string

    constructor ()
      ensures nextChildName == Alpha
    {
      nextChildName := Alpha;
    }

    /** `addChild`: name an AST child after the current name; a keyword token switches the name. */
    method AddChild(parent: RuleNode, child: ParseItem)
      modifies this, parent
      ensures nextChildName == NameAfterItem(old(nextChildName), child)
      ensures parent.children == old(parent.children) + [ChildFor(old(nextChildName), child)]
    {
      if child.AstItem? {
        parent.AddChild(Some(nextChildName), child);
      } else {
        var token := child.token;
        if token == "with" {
          nextChildName := GuardName;
        } else if token == "do" {
          nextChildName := DoRuleName;
        } else if token == "ifnone" {
          nextChildName := IfnoneRuleName;
        }
        parent.AddChild(None, child);
      }
    }

    /** `map`: start from "alpha" and add the parts one by one to a new rule node. */
    method Map(items: seq<ParseItem>) returns (node: RuleNode)
      modifies this
      ensures fresh(node)
      ensures node.children == Children(Alpha, items) && nextChildName == NameAfter(Alpha, items)
    {
      nextChildName := Alpha;
      node := new RuleNode();
      for i := 0 to |items|
        invariant node.children == Children(Alpha, items[..i])
        invariant nextChildName == NameAfter(Alpha, items[..i])
      {
        AddChild(node, items[i]);
        assert items[..i + 1][..i] == items[..i];
      }
      assert items[..|items|] == items;
    }
  }

  /** The names in effect before each of the five AST parts of a full choose rule. */
  lemma FullChooseRuleNames()
    ensures var items := [TokenItem("choose"), AstItem(0), TokenItem("in"), AstItem(1),
                          TokenItem("with"), AstItem(2), TokenItem("do"), AstItem(3),
                          TokenItem("ifnone"), AstItem(4), TokenItem("endchoose")];
            NameAfter(Alpha, items[..1]) == Alpha && NameAfter(Alpha, items[..3]) == Alpha &&
            NameAfter(Alpha, items[..5]) == GuardName && NameAfter(Alpha, items[..7]) == DoRuleName &&
            NameAfter(Alpha, items[..9]) == IfnoneRuleName
  {
    var items := [TokenItem("choose"), AstItem(0), TokenItem("in"), AstItem(1),
                  TokenItem("with"), AstItem(2), TokenItem("do"), AstItem(3),
                  TokenItem("ifnone"), AstItem(4), TokenItem("endchoose")];
    assert Switch("with") == Some(GuardName) && Switch("do") == Some(DoRuleName) && Switch("ifnone") == Some(IfnoneRuleName);
    assert Switch("choose") == None && Switch("in") == None;
    assert items[..1] == [TokenItem("choose")];
    NoKeywordKeepsName(Alpha, items[..1]);
    assert items[..3] == [TokenItem("choose"), AstItem(0), TokenItem("in")];
    NoKeywordKeepsName(Alpha, items[..3]);
    assert items[..5] == items[..3] + [AstItem(1), TokenItem("with")];
    LastKeywordNames(Alpha, items[..5], 4);
    assert items[5] == AstItem(2) && items[6] == TokenItem("do");
    assert items[..7] == items[..5] + [AstItem(2), TokenItem("do")];
    LastKeywordNames(Alpha, items[..7], 6);
    assert items[7] == AstItem(3) && items[8] == TokenItem("ifnone");
    assert items[..9] == items[..7] + [AstItem(3), TokenItem("ifnone")];
    LastKeywordNames(Alpha, items[..9], 8);
  }

  /**
   * `choose x in E with C do R ifnone R2 endchoose`: the variable and the domain
   * are both named "alpha", the condition "guard", the do-rule "dorule" and the
   * ifnone-rule "ifnonerule"; the six keywords are unnamed children.
   */
  lemma FullChooseRule()
    ensures var items := [TokenItem("choose"), AstItem(0), TokenItem("in"), AstItem(1),
                          TokenItem("with"), AstItem(2), TokenItem("do"), AstItem(3),
                          TokenItem("ifnone"), AstItem(4), TokenItem("endchoose")];
            Children(Alpha, items) ==
              [NamedChild(None, TokenItem("choose")), NamedChild(Some("alpha"), AstItem(0)),
               NamedChild(None, TokenItem("in")), NamedChild(Some("alpha"), AstItem(1)),
               NamedChild(None, TokenItem("with")), NamedChild(Some("guard"), AstItem(2)),
               NamedChild(None, TokenItem("do")), NamedChild(Some("dorule"), AstItem(3)),
               NamedChild(None, TokenItem("ifnone")), NamedChild(Some("ifnonerule"), AstItem(4)),
               NamedChild(None, TokenItem("endchoose"))]
  {
    var items := [TokenItem("choose"), AstItem(0), TokenItem("in"), AstItem(1),
                  TokenItem("with"), AstItem(2), TokenItem("do"), AstItem(3),
                  TokenItem("ifnone"), AstItem(4), TokenItem("endchoose")];
    ChildrenShape(Alpha, items);
    FullChooseRuleNames();
  }
}
