# CoreASM choice constructs and module inclusion, in Dafny

This project models two parts of the CoreASM engine and proves properties of them.

**The `choose` / `pick` plugin.** It evaluates the rule `choose x in E [with C] do R [ifnone R2]`
and the expression `pick x in E [with C]`. The interpreter calls the plugin's `interpret` on
such a node again and again. Each call makes one unit of progress. It returns either a child
the interpreter must evaluate next (the domain, the condition, the do-rule or the ifnone-rule)
or the node itself, with its result set or an error reported. The guarded forms keep a list
of remaining candidates per domain node. They draw a random candidate, bind x to it and remove
it from the list. When the condition is false, they clear the condition, unbind x and draw
again. Each candidate is therefore tried at most once.

The model has three layers:
- `ChooseSemantics` says what one call does, as one function per handler over a snapshot
  `State` (the node's children, its result, the environment, the remaining map and the
  reported errors).
- `ChooseRule` has the plugin, the node and the environment as classes, with one method per
  handler. Each method is proved to change the objects exactly as the matching function says.
- `ChooseRuns` feeds every returned child back with its value, taken from an arbitrary
  `Semantics` record and arbitrary random draws. It proves that every evaluation of a fresh
  node ends within 2n + 4 calls for a domain of n elements, with one of the outcomes the
  construct promises. It also proves that no element is bound for the condition more often
  than it occurs in the domain.

`ChooseParse` models the parse map that names the children of a choose rule node after the
keyword before them.

**Module inclusion.** When the engine enters the parsing phase, the modularity plugin forgets
which modules it has loaded. It then replaces every specification line `include <file>` by the
lines of that module file, themselves expanded. A module that is already loaded contributes
nothing, which makes cyclic includes terminate; a module that cannot be read is reported.
- `IncludeSyntax` models the include pattern `^\s*include\s+`, Java's `String.trim` and the
  removal of surrounding quotation marks.
- `Modularity` has the expansion as a reference function `Expand` and the plugin as a class
  whose recursive `InjectModules` is proved to compute it. Its lemmas prove that:
  - each module is loaded at most once;
  - no include directive is left;
  - every output line comes from the input or from a loaded module;
  - expanding is compositional and idempotent;
  - mutual includes terminate.

The code is followed where the documented behaviour differs from it:
- The list of remaining candidates loses the drawn index with `List.remove(i)`, keeping the
  order of the others. It is not an index swap.
- The unguarded forms keep no list of remaining candidates.
- `pick` yields the bound element itself.
- A condition that is not Boolean is reported without unbinding x or dropping the shortened list
  of remaining candidates; the error path leaves both as they are.

## Model

All source paths are under `org.coreasm.engine/src/org/coreasm/engine/plugins/`.

| member | source | states |
|---|---|---|
| ChooseSemantics.EnvAdd | org.coreasm.engine/src/org/coreasm/engine/plugins/chooserule/ChooseRulePlugin.java:278 | `addEnv(x, t)` makes x read as t and leaves every other name's binding as it was |
| ChooseSemantics.EnvRemoveAdd | org.coreasm.engine/src/org/coreasm/engine/plugins/chooserule/ChooseRulePlugin.java:309-312 | `removeEnv(x)` after `addEnv(x, t)` gives back the environment exactly, so a finished node leaves no binding behind |
| ChooseSemantics.RemoveAt | org.coreasm.engine/src/org/coreasm/engine/plugins/chooserule/ChooseRulePlugin.java:280-281 | `s.remove(i)` shortens the list by one, removes exactly the drawn candidate (as multisets) and keeps the order of the others |
| ChooseSemantics.Interpret | org.coreasm.engine/src/org/coreasm/engine/plugins/chooserule/ChooseRulePlugin.java:173-208 | a node that is neither a choose rule nor a pick expression is returned unchanged |
| ChooseSemantics.InterpretKeepsChildren | org.coreasm.engine/src/org/coreasm/engine/plugins/chooserule/ChooseRulePlugin.java:210-654 | no handler changes the domain, the do-rule or the ifnone-rule child; only the interpreter evaluates them |
| ChooseSemantics.DomainFirst | org.coreasm.engine/src/org/coreasm/engine/plugins/chooserule/ChooseRulePlugin.java:210-654 | while the domain is unevaluated every form returns the domain. The guarded forms drop the domain's remaining list (lines 251-256, 463-468, 561-566), so each fresh domain evaluation starts from all candidates; the unguarded forms leave the map alone |
| ChooseSemantics.GuardedDrawShrinks | org.coreasm.engine/src/org/coreasm/engine/plugins/chooserule/ChooseRulePlugin.java:259-283 | a guarded call that hands back the condition had a candidate, bound x to it and stored the list without exactly that candidate, one shorter |
| ChooseSemantics.AtMostOneError | org.coreasm.engine/src/org/coreasm/engine/plugins/chooserule/ChooseRulePlugin.java:210-654 | a call reports no error or exactly one; a call that reports one returns the node itself and leaves its result unset |
| ChooseRule.ASTNode.constructor | org.coreasm.engine/src/org/coreasm/engine/plugins/chooserule/ChooseRulePlugin.java:173-208 | a new node has the given shape, no evaluated child and no result |
| ChooseRule.ASTNode.SetNode | org.coreasm.engine/src/org/coreasm/engine/plugins/chooserule/ChooseRulePlugin.java:230 | `setNode` marks the node evaluated with the given updates and value and does not touch its children |
| ChooseRule.Interpreter.constructor | org.coreasm.engine/src/org/coreasm/engine/plugins/chooserule/ChooseRulePlugin.java:278 | the interpreter starts with the given environment |
| ChooseRule.Interpreter.AddEnv | org.coreasm.engine/src/org/coreasm/engine/plugins/chooserule/ChooseRulePlugin.java:278 | pushes a binding of x (see `EnvAdd`) |
| ChooseRule.Interpreter.RemoveEnv | org.coreasm.engine/src/org/coreasm/engine/plugins/chooserule/ChooseRulePlugin.java:312 | pops the innermost binding of x |
| ChooseRule.Interpreter.GetEnv | org.coreasm.engine/src/org/coreasm/engine/plugins/chooserule/ChooseRulePlugin.java:310 | reads the innermost binding of x, UNDEF for an unbound name |
| ChooseRule.ChooseRulePlugin.constructor | org.coreasm.engine/src/org/coreasm/engine/plugins/chooserule/ChooseRulePlugin.java:69-77 | `initialize` starts with an empty map of remaining candidates and nothing reported |
| ChooseRule.ChooseRulePlugin.Error | org.coreasm.engine/src/org/coreasm/engine/plugins/chooserule/ChooseRulePlugin.java:293-294 | `capi.error` appends the error and leaves the remaining map alone |
| ChooseRule.ChooseRulePlugin.CandidateList | org.coreasm.engine/src/org/coreasm/engine/plugins/chooserule/ChooseRulePlugin.java:262-272 | the list drawn from is `Candidates` of the current state: the remaining list kept for the domain, or else the domain's own enumeration; the domain itself is never changed |
| ChooseRule.ChooseRulePlugin.DrawCandidate | org.coreasm.engine/src/org/coreasm/engine/plugins/chooserule/ChooseRulePlugin.java:273-283 | draws an index below the list's length, binds x to that candidate and stores the list without it under the domain, as `Draw` says |
| ChooseRule.ChooseRulePlugin.RejectCandidate | org.coreasm.engine/src/org/coreasm/engine/plugins/chooserule/ChooseRulePlugin.java:319-326 | a false condition clears the condition's evaluation and unbinds x, as `Reject` says |
| ChooseRule.ChooseRulePlugin.Interpret | org.coreasm.engine/src/org/coreasm/engine/plugins/chooserule/ChooseRulePlugin.java:173-208 | dispatches to exactly one handler, on the node's kind and on which of condition and ifnone-rule it has; the new state and the returned child are those of `ChooseSemantics.Interpret` for an in-range draw |
| ChooseRule.ChooseRulePlugin.InterpretPickExpressionNoCondition | org.coreasm.engine/src/org/coreasm/engine/plugins/chooserule/ChooseRulePlugin.java:210-243 | `pick x in E`: domain first; then a random member, or UNDEF for an empty domain, or a "cannot pick" error for a domain that is not enumerable |
| ChooseRule.ChooseRulePlugin.InterpretPickExpressionWithCondition | org.coreasm.engine/src/org/coreasm/engine/plugins/chooserule/ChooseRulePlugin.java:245-330 | `pick x in E with C`: domain first, dropping its remaining list; then draw or condition, as `PickWithCondition` says |
| ChooseRule.ChooseRulePlugin.PickNextCandidate | org.coreasm.engine/src/org/coreasm/engine/plugins/chooserule/ChooseRulePlugin.java:259-296 | with the domain evaluated: draw and hand back the condition; UNDEF and the remaining list dropped when no candidate is left; an error for a domain that is not enumerable |
| ChooseRule.ChooseRulePlugin.PickOnCondition | org.coreasm.engine/src/org/coreasm/engine/plugins/chooserule/ChooseRulePlugin.java:298-327 | a non-Boolean condition is reported; a true one yields x's value, unbinds x and drops the remaining list; a false one is rejected and the domain handed back |
| ChooseRule.ChooseRulePlugin.InterpretChooseRuleNoConditionNoIfnone | org.coreasm.engine/src/org/coreasm/engine/plugins/chooserule/ChooseRulePlugin.java:335-386 | `choose x in E do R`: domain first; bind a random member and hand back the do-rule, or yield no updates for an empty domain; once the do-rule is evaluated, unbind x and yield its updates |
| ChooseRule.ChooseRulePlugin.InterpretChooseRuleNoConditionWithIfnone | org.coreasm.engine/src/org/coreasm/engine/plugins/chooserule/ChooseRulePlugin.java:392-450 | `choose x in E do R1 ifnone R2`: as above, but an empty domain hands back the ifnone-rule, whose updates become the result |
| ChooseRule.ChooseRulePlugin.InterpretChooseRuleWithConditionNoIfnone | org.coreasm.engine/src/org/coreasm/engine/plugins/chooserule/ChooseRulePlugin.java:456-548 | `choose x in E with C do R`, as `ChooseWithConditionNoIfnone` says; once the do-rule is evaluated, x is unbound, the remaining list dropped and the do-rule's updates are the result |
| ChooseRule.ChooseRulePlugin.ChooseNextCandidate | org.coreasm.engine/src/org/coreasm/engine/plugins/chooserule/ChooseRulePlugin.java:471-507 | with the domain evaluated: draw and hand back the condition; no updates and the remaining list dropped when no candidate is left; an error for a domain that is not enumerable |
| ChooseRule.ChooseRulePlugin.ChooseOnCondition | org.coreasm.engine/src/org/coreasm/engine/plugins/chooserule/ChooseRulePlugin.java:510-532 | a non-Boolean condition is reported; a true one hands back the do-rule; a false one is rejected and the domain handed back |
| ChooseRule.ChooseRulePlugin.InterpretChooseRuleWithConditionWithIfnone | org.coreasm.engine/src/org/coreasm/engine/plugins/chooserule/ChooseRulePlugin.java:554-654 | `choose x in E with C do R1 ifnone R2`, as `ChooseWithConditionWithIfnone` says, including the final case that returns the node unchanged |
| ChooseRule.ChooseRulePlugin.ChooseOrIfnoneNextCandidate | org.coreasm.engine/src/org/coreasm/engine/plugins/chooserule/ChooseRulePlugin.java:569-604 | with the domain evaluated: draw and hand back the condition; when no candidate is left, keep the empty list and hand back the ifnone-rule; an error for a domain that is not enumerable |
| ChooseRule.ChooseRulePlugin.ChooseOrIfnoneOnCondition | org.coreasm.engine/src/org/coreasm/engine/plugins/chooserule/ChooseRulePlugin.java:607-629 | a non-Boolean condition is reported; a true one hands back the do-rule; a false one is rejected and the domain handed back |
| ChooseRuns.DrawIndex | org.coreasm.engine/src/org/coreasm/engine/plugins/chooserule/ChooseRulePlugin.java:275 | the index `Tools.randInt(n)` yields is below the list's length whenever the list is not empty |
| ChooseRuns.ReadyExhausted | org.coreasm.engine/src/org/coreasm/engine/plugins/chooserule/ChooseRulePlugin.java:496-500 | with no candidate left, pick yields UNDEF (lines 285-289); choose without ifnone yields no updates; both drop the list. Choose with ifnone keeps the empty list and hands back the ifnone-rule (lines 595-598) |
| ChooseRuns.ConditionDecides | org.coreasm.engine/src/org/coreasm/engine/plugins/chooserule/ChooseRulePlugin.java:510-531 | an evaluated condition decides: not Boolean is reported (lines 301-307, 609-615); false rejects and returns to the domain; true hands back the do-rule, or for pick yields x's value and unbinds it |
| ChooseRuns.GuardedExhausted | org.coreasm.engine/src/org/coreasm/engine/plugins/chooserule/ChooseRulePlugin.java:595-598 | with no candidate left, every member was turned down, and the evaluation ends with the no-candidate result, binding nothing more |
| ChooseRuns.GuardedConditionError | org.coreasm.engine/src/org/coreasm/engine/plugins/chooserule/ChooseRulePlugin.java:301-307 | a drawn member whose condition is not Boolean stops the evaluation with exactly that error appended and no result; x stays bound to the member and the list stored for the domain is the old one without it |
| ChooseRuns.PickAccepted | org.coreasm.engine/src/org/coreasm/engine/plugins/chooserule/ChooseRulePlugin.java:309-317 | a drawn member whose condition is true ends the evaluation with that member as the pick's value, x unbound to its old binding, no error and the list dropped |
| ChooseRuns.ChooseAccepted | org.coreasm.engine/src/org/coreasm/engine/plugins/chooserule/ChooseRulePlugin.java:520-543 | a drawn member whose condition is true has the do-rule run with x bound to it; the evaluation ends with the do-rule's updates for that member as the result, x unbound, no error and the list dropped |
| ChooseRuns.GuardedRetries | org.coreasm.engine/src/org/coreasm/engine/plugins/chooserule/ChooseRulePlugin.java:524-531 | a false condition returns to the domain (already evaluated, so it stays as it is); the node is ready to draw again, with exactly the drawn candidate fewer |
| ChooseRuns.ReadyStep | org.coreasm.engine/src/org/coreasm/engine/plugins/chooserule/ChooseRulePlugin.java:582-594 | the draw from a ready node records the drawn candidate as bound for the condition, ahead of everything bound later |
| ChooseRuns.RetryReady | org.coreasm.engine/src/org/coreasm/engine/plugins/chooserule/ChooseRulePlugin.java:319-326 | after a false condition the node is ready again, its list the old one without exactly the drawn candidate |
| ChooseRuns.DrawnEnds | org.coreasm.engine/src/org/coreasm/engine/plugins/chooserule/ChooseRulePlugin.java:484-494 | after a draw the evaluation ends with an outcome, and the drawn candidate with those bound later never exceeds the list drawn from |
| ChooseRuns.RejectedEnds | org.coreasm.engine/src/org/coreasm/engine/plugins/chooserule/ChooseRulePlugin.java:319-326 | after a false condition the evaluation goes on from the shortened list and ends with an outcome |
| ChooseRuns.DecidedOutcome | org.coreasm.engine/src/org/coreasm/engine/plugins/chooserule/ChooseRulePlugin.java:298-318 | a condition that is not false ends the evaluation at once with an outcome and nothing more drawn |
| ChooseRuns.ConditionErrorOutcome | org.coreasm.engine/src/org/coreasm/engine/plugins/chooserule/ChooseRulePlugin.java:301-307 | a non-Boolean condition ends in the condition-error outcome: that error appended, x bound to the member, the shortened list stored |
| ChooseRuns.AcceptedOutcome | org.coreasm.engine/src/org/coreasm/engine/plugins/chooserule/ChooseRulePlugin.java:309-318 | the result for an accepted candidate of a ready node, reached with the node completed, is one of the node's outcomes, its member being in the domain |
| ChooseRuns.PickOutcome | org.coreasm.engine/src/org/coreasm/engine/plugins/chooserule/ChooseRulePlugin.java:309-318 | a true condition ends a pick with the drawn member as result |
| ChooseRuns.ChooseOutcome | org.coreasm.engine/src/org/coreasm/engine/plugins/chooserule/ChooseRulePlugin.java:520-543 | a true condition ends a choose with the do-rule's updates for the drawn member as result |
| ChooseRuns.AllRejectedFromReady | org.coreasm.engine/src/org/coreasm/engine/plugins/chooserule/ChooseRulePlugin.java:554-654 | from a ready guarded node whose n remaining candidates all turn the condition down, the evaluation ends after binding exactly n candidates, one per remaining occurrence |
| ChooseRuns.DrawnRest | org.coreasm.engine/src/org/coreasm/engine/plugins/chooserule/ChooseRulePlugin.java:484-494 | after binding a rejected candidate, the rest of the evaluation binds exactly the n - 1 candidates left |
| ChooseRuns.RejectedDrawsRest | org.coreasm.engine/src/org/coreasm/engine/plugins/chooserule/ChooseRulePlugin.java:319-326 | a false condition for the bound candidate returns to the domain with the list without it, from where the remaining n - 1 rejected candidates are each bound once |
| ChooseRuns.RestRejected | org.coreasm.engine/src/org/coreasm/engine/plugins/chooserule/ChooseRulePlugin.java:319-326 | removing the drawn candidate keeps every remaining candidate a rejected one |
| ChooseRuns.UnguardedNoneRejected | org.coreasm.engine/src/org/coreasm/engine/plugins/chooserule/ChooseRulePlugin.java:484-494 | without a condition no member is turned down, so if all of them are the domain is empty |
| ChooseRuns.AllRejectedStarted | org.coreasm.engine/src/org/coreasm/engine/plugins/chooserule/ChooseRulePlugin.java:173-654 | once its domain is evaluated, a fresh node whose members are all turned down binds exactly as many candidates as the domain has members |
| ChooseRuns.GuardedFromReady | org.coreasm.engine/src/org/coreasm/engine/plugins/chooserule/ChooseRulePlugin.java:554-654 | from a ready guarded node with n candidates left, the evaluation ends within 2n + 3 calls with an outcome, binding each remaining candidate at most as often as it is in the list |
| ChooseRuns.GuardedRejected | org.coreasm.engine/src/org/coreasm/engine/plugins/chooserule/ChooseRulePlugin.java:456-548 | after a candidate is turned down, the rest of the evaluation ends, and that candidate with those bound later never exceeds the list |
| ChooseRuns.FreshStarts | org.coreasm.engine/src/org/coreasm/engine/plugins/chooserule/ChooseRulePlugin.java:561-566 | the first call on a fresh node hands back the domain; the guarded forms drop its remaining list |
| ChooseRuns.StartedReady | org.coreasm.engine/src/org/coreasm/engine/plugins/chooserule/ChooseRulePlugin.java:573-583 | after an enumerable domain is evaluated, a guarded node is ready with all of the domain's members as candidates |
| ChooseRuns.DomainRejected | org.coreasm.engine/src/org/coreasm/engine/plugins/chooserule/ChooseRulePlugin.java:600-603 | a domain that is not enumerable ends the evaluation with a "cannot choose" or "cannot pick" error and no result |
| ChooseRuns.UnguardedRuns | org.coreasm.engine/src/org/coreasm/engine/plugins/chooserule/ChooseRulePlugin.java:335-450 | without a condition, pick yields a member (UNDEF when empty, lines 210-243) and choose runs its do-rule once with x bound to a member (ifnone-rule or no updates when empty); x is unbound afterwards |
| ChooseRuns.UnguardedTakes | org.coreasm.engine/src/org/coreasm/engine/plugins/chooserule/ChooseRulePlugin.java:226-231 | without a condition and with a non-empty domain, the member at the drawn index is the result (pick's value or the do-rule's updates for it), x unbound, no error |
| ChooseRuns.AcceptedResult | org.coreasm.engine/src/org/coreasm/engine/plugins/chooserule/ChooseRulePlugin.java:309-318 | from a ready guarded node whose drawn member is acceptable, the evaluation ends with the result for that member |
| ChooseRuns.GuardedTakes | org.coreasm.engine/src/org/coreasm/engine/plugins/chooserule/ChooseRulePlugin.java:484-494 | with a condition, when the first draw is an acceptable member, that member is the result and the only one bound for the condition |
| ChooseRuns.StartedTakes | org.coreasm.engine/src/org/coreasm/engine/plugins/chooserule/ChooseRulePlugin.java:173-654 | once the domain is evaluated, a first draw of an acceptable member makes it the result, with or without a condition |
| ChooseRuns.PossibleResult | org.coreasm.engine/src/org/coreasm/engine/plugins/chooserule/ChooseRulePlugin.java:173-654 | every member of the domain that the condition accepts (every member, without a condition) is the result of the evaluation for some sequence of random draws, with x unbound, no error and the list dropped |
| ChooseRuns.StartedEnds | org.coreasm.engine/src/org/coreasm/engine/plugins/chooserule/ChooseRulePlugin.java:173-654 | once its domain is evaluated, a fresh node ends with an outcome, binding only members of the domain |
| ChooseRuns.EvaluationEnds | org.coreasm.engine/src/org/coreasm/engine/plugins/chooserule/ChooseRulePlugin.java:173-654 | for every sequence of random draws, a fresh node over n members ends within 2n + 4 calls with one of four outcomes: the result for an acceptable member (x unbound, no error, list dropped); the no-candidate result when every member is turned down; a domain error; or a condition error. The condition is evaluated at most n times and never twice for the same occurrence of a member; when every member is turned down, the no-candidate result comes only after the condition was evaluated exactly once for every occurrence of every member |
| ChooseParse.Switch | org.coreasm.engine/src/org/coreasm/engine/plugins/chooserule/ChooseRulePlugin.java:686-691 | exactly the tokens `with`, `do` and `ifnone` switch the child name |
| ChooseParse.ChildrenShape | org.coreasm.engine/src/org/coreasm/engine/plugins/chooserule/ChooseRulePlugin.java:682-696 | every part becomes exactly one child in order; an AST part is named by the name in effect after the parts before it, a token is unnamed |
| ChooseParse.NoKeywordKeepsName | org.coreasm.engine/src/org/coreasm/engine/plugins/chooserule/ChooseRulePlugin.java:682-696 | tokens other than the three keywords, and AST parts, leave the name as it was |
| ChooseParse.LastKeywordNames | org.coreasm.engine/src/org/coreasm/engine/plugins/chooserule/ChooseRulePlugin.java:682-696 | the name in effect is the one the last of the three keywords gives |
| ChooseParse.RuleNode.constructor | org.coreasm.engine/src/org/coreasm/engine/plugins/chooserule/ChooseRulePlugin.java:676 | a new rule node has no children |
| ChooseParse.RuleNode.AddChild | org.coreasm.engine/src/org/coreasm/engine/plugins/chooserule/ChooseRulePlugin.java:684 | `addChild` appends one child, with its name or none, after the others |
| ChooseParse.ChooseParseMap.constructor | org.coreasm.engine/src/org/coreasm/engine/plugins/chooserule/ChooseRulePlugin.java:668-672 | the name starts as "alpha" |
| ChooseParse.ChooseParseMap.AddChild | org.coreasm.engine/src/org/coreasm/engine/plugins/chooserule/ChooseRulePlugin.java:682-696 | an AST child is added under the current name; a token is added unnamed and switches the name if it is a keyword |
| ChooseParse.ChooseParseMap.Map | org.coreasm.engine/src/org/coreasm/engine/plugins/chooserule/ChooseRulePlugin.java:674-680 | `map` resets the name to "alpha" and adds all parts in order; the node's children are `Children("alpha", parts)` |
| ChooseParse.FullChooseRuleNames | org.coreasm.engine/src/org/coreasm/engine/plugins/chooserule/ChooseRulePlugin.java:58-60 | in a full choose rule the five AST parts see the names alpha, alpha, guard, dorule and ifnonerule |
| ChooseParse.FullChooseRule | org.coreasm.engine/src/org/coreasm/engine/plugins/chooserule/ChooseRulePlugin.java:666-698 | a full `choose … endchoose` becomes the variable and domain named "alpha", the condition "guard", the rules "dorule" and "ifnonerule", and six unnamed keyword children |
| IncludeSyntax.SpaceRunEnd | org.coreasm.engine/src/org/coreasm/engine/plugins/modularity/ModularityPlugin.java:224 | a greedy `\s*` ends at the first character that is not `\s` |
| IncludeSyntax.IncludePrefix | org.coreasm.engine/src/org/coreasm/engine/plugins/modularity/ModularityPlugin.java:224-232 | a match of `^\s*include\s+` is leading `\s`, the keyword, at least one `\s`, and ends before a character that is not `\s` |
| IncludeSyntax.IncludePrefixComplete | org.coreasm.engine/src/org/coreasm/engine/plugins/modularity/ModularityPlugin.java:224-232 | every line of the form `\s* include \s+ rest` is recognised |
| IncludeSyntax.IncludePrefixSound | org.coreasm.engine/src/org/coreasm/engine/plugins/modularity/ModularityPlugin.java:224-232 | every recognised line has that form |
| IncludeSyntax.RunOnKeywordExample | org.coreasm.engine/src/org/coreasm/engine/plugins/modularity/ModularityPlugin.java:224-232 | `includes lib` is no include directive |
| IncludeSyntax.TrimStart | org.coreasm.engine/src/org/coreasm/engine/plugins/modularity/ModularityPlugin.java:236 | the leading characters up to U+0020 that `trim` drops |
| IncludeSyntax.TrimEnd | org.coreasm.engine/src/org/coreasm/engine/plugins/modularity/ModularityPlugin.java:236 | the trailing characters up to U+0020 that `trim` drops |
| IncludeSyntax.Trim | org.coreasm.engine/src/org/coreasm/engine/plugins/modularity/ModularityPlugin.java:236 | `trim` keeps a contiguous part that starts and ends above U+0020; everything dropped is at most U+0020 |
| IncludeSyntax.StripQuotesAsWrittenFails | org.coreasm.engine/src/org/coreasm/engine/plugins/modularity/ModularityPlugin.java:238-239 | the quote loop as written throws exactly on a name made of an odd number of quotation marks |
| IncludeSyntax.Unquote | org.coreasm.engine/src/org/coreasm/engine/plugins/modularity/ModularityPlugin.java:238-239 | the corrected quote removal never lengthens the name and leaves no quote pair around it |
| IncludeSyntax.UnquoteRemovesQuotePairs | org.coreasm.engine/src/org/coreasm/engine/plugins/modularity/ModularityPlugin.java:238-239 | the removal takes the same number of characters from both ends, and all of them are quotation marks |
| IncludeSyntax.QuotePairAround | org.coreasm.engine/src/org/coreasm/engine/plugins/modularity/ModularityPlugin.java:238-239 | one more loop iteration removes one more quotation mark from each end |
| IncludeSyntax.StripQuotesAsWrittenAgrees | org.coreasm.engine/src/org/coreasm/engine/plugins/modularity/ModularityPlugin.java:238-239 | wherever the loop as written does not throw, it computes what the corrected removal computes |
| IncludeSyntax.StripQuotes | org.coreasm.engine/src/org/coreasm/engine/plugins/modularity/ModularityPlugin.java:238-239 | the `while` loop, with the lone-quote guard, computes `Unquote` |
| IncludeSyntax.IncludeTargetOf | org.coreasm.engine/src/org/coreasm/engine/plugins/modularity/ModularityPlugin.java:224-239 | on `\s* include \s+ rest`, the module named is the rest, trimmed and unquoted |
| IncludeSyntax.TrimUnquoteQuoted | org.coreasm.engine/src/org/coreasm/engine/plugins/modularity/ModularityPlugin.java:236-239 | `"name"` loses exactly its two quotation marks |
| IncludeSyntax.QuotedTarget | org.coreasm.engine/src/org/coreasm/engine/plugins/modularity/ModularityPlugin.java:224-239 | `include "name"` names `name` |
| IncludeSyntax.LoneQuoteLine | org.coreasm.engine/src/org/coreasm/engine/plugins/modularity/ModularityPlugin.java:236-239 | the line `include "` is recognised and leaves the name `"`; the loop as written throws on it, the corrected removal keeps `"` |
| Modularity.Expand | org.coreasm.engine/src/org/coreasm/engine/plugins/modularity/ModularityPlugin.java:218-261 | expanding never forgets a loaded module; what the expansion outputs and loads is stated by ExpandLoadsOnce (only the modules it starts loading are added, each once), ExpandOrigin (the output is the non-directive lines plus the loaded modules' lines, errors name unreadable modules), ExpandClean (no directive is left) and ExpandAppend (expansion composes over concatenation) |
| Modularity.ExpandLine | org.coreasm.engine/src/org/coreasm/engine/plugins/modularity/ModularityPlugin.java:227-259 | expanding one line never forgets a loaded module; what it outputs and loads is stated by ExpandLineLoadsOnce and ExpandLineOrigin |
| Modularity.ExpandLoadsOnce | org.coreasm.engine/src/org/coreasm/engine/plugins/modularity/ModularityPlugin.java:240-250 | an expansion only adds loaded modules; what it adds are exactly the modules it starts loading, each once, none loaded before |
| Modularity.ExpandLineLoadsOnce | org.coreasm.engine/src/org/coreasm/engine/plugins/modularity/ModularityPlugin.java:240-256 | the same for one line, through the recursive load |
| Modularity.LoadsOnceThen | org.coreasm.engine/src/org/coreasm/engine/plugins/modularity/ModularityPlugin.java:227-259 | loading each module once is kept when two consecutive parts are expanded one after the other |
| Modularity.LoadsOnceSplice | org.coreasm.engine/src/org/coreasm/engine/plugins/modularity/ModularityPlugin.java:245-248 | marking a module loaded before expanding it keeps each module loaded once |
| Modularity.ExpandOrigin | org.coreasm.engine/src/org/coreasm/engine/plugins/modularity/ModularityPlugin.java:227-261 | up to order, the output is the input's lines that are no include directive plus those of the loaded readable modules; every error names a loaded module that cannot be read |
| Modularity.ExpandLineOrigin | org.coreasm.engine/src/org/coreasm/engine/plugins/modularity/ModularityPlugin.java:240-258 | the same for one line |
| Modularity.ExpandClean | org.coreasm.engine/src/org/coreasm/engine/plugins/modularity/ModularityPlugin.java:227-258 | no include directive is left after expanding |
| Modularity.NoIncludesUnchanged | org.coreasm.engine/src/org/coreasm/engine/plugins/modularity/ModularityPlugin.java:257-258 | lines without include directives are copied unchanged and in order, loading nothing |
| Modularity.ExpandAppend | org.coreasm.engine/src/org/coreasm/engine/plugins/modularity/ModularityPlugin.java:227-259 | expanding two parts one after the other, the second with the modules the first loaded, is expanding them together |
| Modularity.ExpandsOne | org.coreasm.engine/src/org/coreasm/engine/plugins/modularity/ModularityPlugin.java:227-259 | a single line expands as that line does |
| Modularity.ExpandsPrefix | org.coreasm.engine/src/org/coreasm/engine/plugins/modularity/ModularityPlugin.java:227-259 | one more line extends the expansion by that line's own |
| Modularity.ExpansionIdempotent | org.coreasm.engine/src/org/coreasm/engine/plugins/modularity/ModularityPlugin.java:218-261 | expanding an expanded specification again changes nothing and loads nothing |
| Modularity.MutualIncludes | org.coreasm.engine/src/org/coreasm/engine/plugins/modularity/ModularityPlugin.java:240-250 | two modules that include each other expand to b's lines followed by a's, each loaded once: the cycle terminates |
| Modularity.ModularityPlugin.constructor | org.coreasm.engine/src/org/coreasm/engine/plugins/modularity/ModularityPlugin.java:68 | nothing loaded, nothing reported |
| Modularity.ModularityPlugin.FireOnModeTransition | org.coreasm.engine/src/org/coreasm/engine/plugins/modularity/ModularityPlugin.java:81-97 | entering the parsing phase forgets the loaded modules and replaces the specification by its expansion from nothing loaded; any other transition changes nothing |
| Modularity.ModularityPlugin.InjectModules | org.coreasm.engine/src/org/coreasm/engine/plugins/modularity/ModularityPlugin.java:218-261 | the loop over the lines returns `Expand` of them from the current loaded set, leaves that loaded set as `Expand` does, and appends its loads and errors to the logs |
| Modularity.ModularityPlugin.InjectLine | org.coreasm.engine/src/org/coreasm/engine/plugins/modularity/ModularityPlugin.java:229-258 | one line of the loop does what `ExpandLine` says |
| Modularity.ModularityPlugin.InjectModule | org.coreasm.engine/src/org/coreasm/engine/plugins/modularity/ModularityPlugin.java:240-256 | an include directive skips a loaded module, or marks the module loaded and announces it, then reports it unreadable or expands it |
| Modularity.ModularityPlugin.LoadModule | org.coreasm.engine/src/org/coreasm/engine/plugins/modularity/ModularityPlugin.java:245-250 | a readable module is marked loaded before its own lines are expanded, and its expansion takes the include's place |
| Modularity.Recognise | org.coreasm.engine/src/org/coreasm/engine/plugins/modularity/ModularityPlugin.java:229-239 | match, take the rest, trim, remove quotes: the result is `IncludeTarget` |
| Modularity.IncludeNode.constructor | org.coreasm.engine/src/org/coreasm/engine/plugins/modularity/ModularityPlugin.java:282-285 | a new node has no cached file name |
| Modularity.IncludeNode.GetFilename | org.coreasm.engine/src/org/coreasm/engine/plugins/modularity/ModularityPlugin.java:287-298 | the first call returns the "alpha" token without its first and last character and caches it; later calls return the cached name |

## Left out

- Randomness: `Tools.randInt` is a draw index chosen with `:|` in the methods, and an arbitrary function `rand` in `ChooseRuns`. The uniform distribution is not modelled.
- The per-thread `ThreadLocal` wrapping of the remaining map is a single map, keyed by the domain node's identity (`domainId`).
- The interpreter's internals (child evaluation, `clearTree` below the condition, update multisets) are not part of this model. `clearTree` resets the condition's evaluated flag. Child values come from a `Semantics` record.
- Error text and positions: `capi.error` appends a `SpecError` naming the kind of error and the offending value; messages, `Tools.sizeLimit` and node positions are left out.
- The enumeration of a domain (indexed view or `enumerate()`) is a sequence of elements.
- The parsers (`getParsers`, lexers, keywords, operators) are not modelled. `ChooseParseMap.addChildren` is modelled as adding the parts one by one, and scanner information is left out.
- `Specification.loadSpec` is a map from file name to lines; a name that is not in the map stands for an `IOException`. Path resolution relative to the specification is not modelled.
- `Logger.log`: the "Loading module" messages become the `loading` log; the "Skipping module" messages are left out.
- Modularity.ModularityPlugin.InjectLine: it applies the recogniser `IncludeTarget` as a function value; the step-by-step recognition (match, trim, quote loop) is the method `Recognise`, proved equal to it.
- Modularity.IncludeNode.GetFilename: requires an "alpha" token of at least two characters, which a parsed string literal always has; the source would throw on a shorter one.
- ChooseRuns.EvaluationEnds: states a bound of 2n + 4 handler calls and an outcome for every draw, and that an all-rejecting domain is exhausted only after every member was tried, but not the probability of each outcome; that each acceptable member can be the result is `PossibleResult`.
- ChooseRuns.Outcome: an error does not end the construct's own state. After a non-Boolean condition x stays bound and the shortened list stays stored (lines 301-307, 512-518, 609-615), as the source leaves them; abandoning the step after an error belongs to the engine, which is not modelled. `Outcome` states what is left behind, and a later evaluation of the domain drops the stale list on its first call (`DomainFirst`, `FreshStarts`).
- Modularity.Recognise: the expansion uses the corrected quote removal, so the line `include "` reports the module `"` as one that cannot be loaded, where the source throws `StringIndexOutOfBoundsException` (see Findings).
- Printing the modified specification in `fireOnModeTransition` is commented out in the source and is not modelled.

## Findings

| source | as written | input that shows it | evidently intended | confidence | as-written member | corrected member |
|---|---|---|---|---|---|---|
| org.coreasm.engine/src/org/coreasm/engine/plugins/modularity/ModularityPlugin.java:238-239 | while the name starts and ends with `"`, take `substring(1, length - 1)`; a name that is a single `"` both starts and ends with it, and `substring(1, 0)` throws `StringIndexOutOfBoundsException`, which the `IOException` handler does not catch | the specification line `include "` (also `include """`) | stop removing quotes once fewer than two characters are left, so the name stays `"` and is reported as a module that cannot be loaded | not executed | IncludeSyntax.StripQuotesAsWrittenFails | IncludeSyntax.UnquoteRemovesQuotePairs |
