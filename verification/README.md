# Cost gate: a verified model

This project models the decision pipeline of the cost gate and proves what it promises. Two
revisions of a CloudFormation template are resolved as far as static information allows, flattened
to JSON Pointers, matched resource by resource, compared, priced, measured against budgets and
policies, and turned into one decision whose report has to add up.

`dafny verify dfyconfig.toml` checks every file.

## How the model is organised

| files | part of the pipeline |
|---|---|
| `Templates`, `SubTemplates`, `Intrinsics`, `SubResults`, `Spelling`, `Splitting`, `Rendering` | terms, the resolver and the condition evaluator; the handlers written as loops appear as methods proved equal to the recursive definitions, and what each function yields is told without them |
| `Monotonicity`, `Deployment`, `Soundness`, `Chains`, `Independence`, `Guards`, `Parameters`, `Completeness`, `CycleGuard`, `DepthLimit` | the meaning of a template once deployed, what partial evaluation guarantees about it, and exactly where it does not |
| `Pointers`, `Metadata`, `Flatten`, `FlattenLaws`, `FlattenFields`, `DeployedProperties`, `Tags` | JSON Pointers (RFC 6901), the curated property table, the in-place flattener and what its output says of a deployment, tags |
| `Ordering`, `Lattices`, `Resources` | text order, stable sorting, sums; ranked enumerations; resources and graphs |
| `Matching`, `MatchingLaws`, `Pairing`, `Diff`, `DiffLaws`, `Changes` | tiered greedy matching and the change set |
| `Estimation`, `EstimationLaws`, `Components`, `SplitLaws`, `Identifiers`, `PriceLaws` | pricing both graphs, totals, reconciliation |
| `Decisions`, `Budgets`, `BudgetLaws`, `BudgetFields`, `Policies`, `GateLaws`, `GateFields`, `ConfidenceLaws` | evaluations, the decision lattice, budgets, the condition grammar, monotonicity of the whole gate |
| `Cache`, `Escaping`, `CodeSpans`, `EscapingFields` | the price cache and provider chains; Markdown escaping |

## Where the code falls short of its promise

Each of these is a lemma with the input, or the exact condition, that shows it.

- Resolution: a negative `Select` index or a string source is accepted (`LastIsSelected`; exactly
  when that is wrong: `SelectionIsRightExactly`).
  A call that `Select`, `FindInMap` or a decided `If` picks out is never resolved
  (`ChainsDecide`): it disappears from the flattened properties (`SelectedCallVanishes`; exactly
  when: `NoTraceExactly`), makes a join unknown (`JoinIsKnownExactly`), and `Equals` compares its
  rendering (`EqualsComparesUnresolvedText`; exactly when: `OperandComparesExactly`).
- Conditions: booleans are compared in the spelling of the host language (`TrueFlagIsMissed`;
  exactly when: `BooleansCompareExactly`), structures are compared at all
  (`StructuresAreDecidedBlindly`), and the placeholder account number decides
  (`PlaceholderAccountDecides`; templates that do not mention it: `SoundForEveryAccount`).
- Parameters: a boolean default is recorded in the spelling of the host language
  (`DefaultedFlagIsMissed`; exactly when that matters: `DefaultComparesExactly`).
- Tags: of tags with a repeated key the last *as text* wins, so index 9 beats index 10
  (`NineBeatsTen`; exactly when: `TagsAreRecovered`).
- Diff: `true` and `1` compare equal, so a change from the first to the
  second goes unnoticed (`TrueLooksLikeOne`).
- Reconciliation: a resource that keeps its name and changes its type makes the report fail if a
  dimension name is shared (`RetypedResourceIsRefused`, `ReportAddsUpExactly`).
- Totals: reverting a change does not negate the fixed part where a dimension changes category
  (`TurnedDimensionIsNotNegated`; exactly when: `RevertingNegatesTheSplitExactly`).
- Confidence: adding a costly, certain component can silence a rule about low confidence
  (`CertaintyCanOpenTheGate`; exactly when the facts only get worse: `OneMoreIsWorseExactly`).
- Policies and budgets: a blank description or an empty approver group is accepted when loaded and
  refused when the rule fires (`PolicyEvaluationIsValidExactly`, `FindingsAreValidExactly`); a
  budget limit of zero can never be passed (`ZeroLimitIsSilent`).
- Table cells: pipes are widened after the cut, so a cell can outgrow its limit
  (`TwoPipesMakeTwelve`; exactly when: `CellLengthExactly`).
- Code spans: text that begins and ends with a space loses both when displayed (`SpanShowsText`).

## Model

| member | source | states |
|---|---|---|
| Intrinsics.FindInMapByLoop | src/cost_gate/parsers/intrinsics.py:294-326 | The key-gathering loop and the descent through nested mappings yield what the recursive definition says: unknown at the first key that is not a known string or not present, otherwise the entry with the weakest provenance of its three keys |
| Intrinsics.JoinByLoop | src/cost_gate/parsers/intrinsics.py:356-382 | The joining loop, with its resolved-list fallback, computes the recursive definition |
| Intrinsics.ScanTemplate | src/cost_gate/parsers/intrinsics.py:438-470 | The `while` scan over `index` gathers exactly the text and provenances that the segment grammar prescribes, or fails where a slot has no known scalar |
| Intrinsics.SubByScanning | src/cost_gate/parsers/intrinsics.py:426-471 | `Fn::Sub` by scanning equals `Fn::Sub` by grammar, malformed arguments included |
| SubTemplates.PrintInvertsParse | src/cost_gate/parsers/intrinsics.py:438-453 | The segments of any template concatenate back to it and form an allowed segmentation |
| SubTemplates.ParseInvertsPrint | src/cost_gate/parsers/intrinsics.py:438-453 | The grammar is unambiguous: every allowed segmentation is the one that parsing its own text finds |
| SubResults.SubConcatenates | src/cost_gate/parsers/intrinsics.py:426-471 | A substitution is known if and only if every slot is a known scalar; it is then the concatenation of its pieces, no piece has weaker provenance than the whole, and the whole takes its provenance from a piece or from the template |
| SubResults.PlainTextIsItself | src/cost_gate/parsers/intrinsics.py:438-444 | A template without a slot resolves to itself with template provenance |
| Templates.Weakest | src/cost_gate/domain/enums.py:321-335 | The least specific of the given provenances: one of them, ranked no earlier than any |
| Spelling.WeakestOfTwo | src/cost_gate/domain/enums.py:321-335 | Of two provenances the one later in the documented order is kept |
| Spelling.RefSpelled | src/cost_gate/parsers/intrinsics.py:211-269 | `Ref` yields, in this order, a resource, the supplied value, the template's default, or an unknown, each with its own evidence |
| Spelling.PseudoSpelled | src/cost_gate/parsers/intrinsics.py:188-209 | Each pseudo parameter, by the name a template gives it |
| Spelling.GetAttSpelled | src/cost_gate/parsers/intrinsics.py:272-282 | `Fn::GetAtt` names a resource of the template and its attribute path joined by dots |
| Spelling.DottedSlotIsGetAtt | src/cost_gate/parsers/intrinsics.py:455-466 | A dotted slot of `Fn::Sub` stands for what `Fn::GetAtt` yields of the part before and the part after its first dot |
| Spelling.EscapedSlot | src/cost_gate/parsers/intrinsics.py:449-454 | An escaped slot is written out without its exclamation mark |
| Spelling.SlotSpelled | src/cost_gate/parsers/intrinsics.py:455-461 | A slot without a dot stands for the local variable of its name, or else for what `Ref` yields |
| Spelling.SubSpelled | src/cost_gate/parsers/intrinsics.py:426-471 | `Fn::Sub` with a template alone or with local variables, by the grammar of its segments |
| Spelling.SubMalformed | src/cost_gate/parsers/intrinsics.py:426-436 | Any other argument is malformed; a second item that is no mapping only adds no variables |
| Spelling.IfSpelled | src/cost_gate/parsers/intrinsics.py:329-353 | `Fn::If` yields the branch decided on; undecided, the scenarios are the branches that are a string, an integer or a boolean, in order |
| Spelling.FindInMapSpelled | src/cost_gate/parsers/intrinsics.py:294-326 | `Fn::FindInMap` with literal keys yields what the mappings hold under the three keys, or an unknown |
| Spelling.GroupsSpelled | src/cost_gate/parsers/intrinsics.py:611-629 | `Fn::And` and `Fn::Or` are decided exactly when their operands force them, whatever the undecided ones turn out to be |
| Spelling.NegationSpelled | src/cost_gate/parsers/intrinsics.py:590-609 | `Fn::Not` and the reference to a condition |
| Spelling.OpaqueSpelled | src/cost_gate/parsers/intrinsics.py:285-291 | Imports, Base64, CIDR blocks and zones are unknowns of their own kind |
| Spelling.PositionSpelled | src/cost_gate/parsers/intrinsics.py:385-405 | `Fn::Select` by an integer, a string, a boolean or a fraction: which element, from which end, and when none |
| Splitting.SplitIsExact | src/cost_gate/parsers/intrinsics.py:408-423 | `Fn::Split` yields exactly those texts that joined by the delimiter give the source back, none of which holds the delimiter, and each of which but the last ends where the delimiter first occurs |
| Splitting.SplitIsUnique | src/cost_gate/parsers/intrinsics.py:408-423 | No other pieces do: whatever pieces are cut leftmost are found again from their join |
| Splitting.JoinUndoesSplit | src/cost_gate/parsers/intrinsics.py:356-423 | Joining by the delimiter undoes splitting by it |
| Rendering.DelimitersStandBetween | src/cost_gate/parsers/intrinsics.py:356-382 | Joining two rows of pieces puts one delimiter between them and nothing else |
| Rendering.ScalarIsWritten | src/cost_gate/parsers/intrinsics.py:596-601 | The one string each literal scalar compares equal to |
| Rendering.StructureIsWritten | src/cost_gate/parsers/intrinsics.py:596-601 | A list or a mapping compares equal to the one string that it is rendered as |
| Rendering.PieceIsWritten | src/cost_gate/parsers/intrinsics.py:356-382 | How each literal scalar stands in a join; a null leaves nothing |
| Rendering.IntTextReadsBack | src/cost_gate/parsers/intrinsics.py:575-631 | An integer is written in decimal digits that stand for it, without a leading zero, behind a minus sign when negative |
| Rendering.SixtyLevels | src/cost_gate/parsers/intrinsics.py:236-241 | Sixty calls inside one another are resolved, sixty-one are not |
| Monotonicity.ResolutionIsMonotone | src/cost_gate/parsers/intrinsics.py:211-248 | Supplying parameters that had neither value nor default, or starting at a smaller depth, keeps every known, reference or omitted result, for every node, cyclic conditions included |
| Monotonicity.VerdictIsMonotone | src/cost_gate/parsers/intrinsics.py:554-631 | The same for verdicts: a decided condition stays decided the same way |
| Monotonicity.ConditionsAreIrrelevant | src/cost_gate/parsers/intrinsics.py:229-248 | What a node without condition functions resolves to does not depend on the conditions section |
| Soundness.ResolutionIsSound | src/cost_gate/parsers/intrinsics.py:229-471 | In every deployment that agrees with the supplied values, with the pseudo parameters and defaults the node and its conditions mention and with the definitions of the conditions they consult, a known result denotes the deployed value, a reference the deployed attribute, an omission nothing; guard on the node: `Equals` compares, `Join` and `Sub` combine scalars whose text the deployment shares, `Select` picks by a non-negative index from something other than a string |
| Soundness.VerdictIsSound | src/cost_gate/parsers/intrinsics.py:554-631 | A condition evaluated to true or false has that truth in every such deployment, also when conditions are cyclic |
| Guards.SoundForEveryAccount | src/cost_gate/parsers/intrinsics.py:174-209 | Both statements for deployments to any account whatever, for templates that do not mention the account number and that compare or join only strings and integers, given the defaults they use |
| Parameters.StringParameterDefaults | src/cost_gate/parsers/normalize.py:165-172 | The loop records exactly the scalar defaults other than null, each as the host language writes it |
| Parameters.DefaultInFields | src/cost_gate/parsers/normalize.py:165-172 | Strings, integers, booleans and fractions count as defaults; a null, a list, a mapping and a missing default do not |
| Parameters.UnknownParameters | src/cost_gate/parsers/normalize.py:206-208 | The names reported are the declared parameters with neither a supplied value nor a default, in order |
| Parameters.UnresolvedExactly | src/cost_gate/parsers/normalize.py:206-219 | A parameter is so reported if and only if a reference to it stays unknown |
| Parameters.AccountIsTwelveZeros | src/cost_gate/parsers/intrinsics.py:59-60 | In every template the account number resolves to twelve zeros |
| Parameters.DefaultAgreesExactly | src/cost_gate/parsers/normalize.py:165-172 | The recorded default is the deployed value if and only if a value is supplied, there is no default, or the default reads alike in both languages |
| Parameters.DefaultComparesExactly | src/cost_gate/parsers/normalize.py:165-172 | Comparing a parameter left at its default with a string is decided, rightly if and only if both readings of the default agree on whether it is that string |
| Parameters.BooleanDefaultExactly | src/cost_gate/parsers/normalize.py:165-172 | With a boolean default: rightly if and only if the string is neither of its two spellings |
| Parameters.DefaultedFlagIsMissed | src/cost_gate/parsers/normalize.py:165-172 | With `Default: true` a comparison with the string `true` is decided false although it holds once deployed |
| Parameters.PlainTemplatesAreSound | src/cost_gate/parsers/normalize.py:210-219 | In the context a template is normalised in: whatever the account, resolution and verdicts are sound for templates that mention neither the account nor a parameter left at a boolean or fractional default, and compare or join only strings and integers |
| Soundness.ScenariosCoverDeployment | src/cost_gate/parsers/intrinsics.py:329-353 | An undecided `Fn::If` over two scalars lists the value that will be deployed |
| Soundness.SelectOutsideTheGuard | src/cost_gate/parsers/intrinsics.py:385-405 | A known selection denotes the selected element if it picks from a list by a non-negative index, and otherwise whatever the environment says of the call |
| Guards.SelectionIsRightExactly | src/cost_gate/parsers/intrinsics.py:385-405 | A known selection deploys as resolved in every deployment if and only if it picks from a list by a non-negative index; otherwise a deployment that differs is named |
| Guards.LastIsSelected | src/cost_gate/parsers/intrinsics.py:385-405 | For instance, `Fn::Select` at -1 is resolved to the last element of a list, and a deployment has another value there |
| Guards.DecidedEqualsIsRight | src/cost_gate/parsers/intrinsics.py:575-631 | A decided `Equals` has its deployed truth in every deployment when neither operand resolves to a raw call or a structure and the scalars compared read alike |
| Guards.OperandComparesExactly | src/cost_gate/parsers/intrinsics.py:575-631 | The exact guard of one operand: a known operand that deploys to a scalar compares right with every string if and only if the program reads it as the deployment does, where a picked call reads as its own rendering |
| Guards.ScalarsCompareExactly | src/cost_gate/parsers/intrinsics.py:575-631 | Two literal scalars are always decided, rightly if and only if program and deployment agree on whether their texts are the same |
| Guards.BooleansCompareExactly | src/cost_gate/parsers/intrinsics.py:575-631 | A boolean compared with a string is decided rightly if and only if the string is neither its spelling in the host language nor its spelling in templates |
| Guards.TrueFlagIsMissed | src/cost_gate/parsers/intrinsics.py:575-631 | A flag supplied as `true` and compared with the boolean `true` is decided different, although it holds once deployed |
| Guards.RawCallMisleads | src/cost_gate/parsers/intrinsics.py:575-631 | Any operand whose chain ends in a picked call is decided different from its own deployed value, unless it happens to render as that value |
| Guards.EqualsComparesUnresolvedText | src/cost_gate/parsers/intrinsics.py:385-405 | The concrete template: a supplied parameter picked from a list by `Fn::Select` is decided different from its own value |
| Guards.StructuresAreDecidedBlindly | src/cost_gate/parsers/intrinsics.py:575-631 | A comparison of known operands one of which deploys to no scalar is decided, and for either truth there is a deployment that has it, so the verdict is wrong in one of them; calls inside the operands and the conditions consulted elsewhere make no difference |
| Independence.MeansElsewhere | src/cost_gate/parsers/intrinsics.py:229-471 | What a term means depends on what a deployment says of the calls inside it and of no others |
| Independence.NoCallInItsParts | src/cost_gate/parsers/intrinsics.py:294-405 | A call never occurs in what one of its arguments resolves to |
| Guards.JoinedTextExactly | src/cost_gate/parsers/intrinsics.py:356-382 | A join, by any delimiter, over parts that resolve to the scalars they deploy to is known; the text it resolves to and the text it deploys to, piece by piece |
| Guards.JoinedScalarExactly | src/cost_gate/parsers/intrinsics.py:356-382 | Where all other parts read alike, the resolved text is the deployed one if and only if the remaining part reads alike |
| Guards.PlaceholderAccountDecides | src/cost_gate/parsers/intrinsics.py:188-209 | Comparing the account number with a text is always decided, rightly if and only if the deployed account is the placeholder or the text is neither of the two |
| Chains.ChainsDecide | src/cost_gate/parsers/intrinsics.py:294-405 | Read off the arguments: resolution returns an unevaluated call if and only if the chain of decided `If`, `Select` and `FindInMap` ends in a picked one, and a property is omitted or unevaluated if and only if the chain ends there or in `AWS::NoValue` |
| Completeness.ResolutionIsExact | src/cost_gate/parsers/intrinsics.py:229-471 | On nodes with room to recurse, whose conditions are decided, whose parameters have values and whose computing calls are not fed a picked call, resolution yields a scalar if and only if the inputs alone determine that scalar and the chain does not end in a picked call |
| Completeness.JoinIsKnownExactly | src/cost_gate/parsers/intrinsics.py:356-382 | A join over parts that each deploy to a scalar is known if and only if no part ends in a picked call |
| Completeness.SelectedCallIsNotJoined | src/cost_gate/parsers/intrinsics.py:356-405 | For instance, a join over a reference that `Fn::Select` picks out stays unknown although its parameter has a value |
| CycleGuard.GuardIsAFixedPoint | src/cost_gate/parsers/intrinsics.py:554-631 | Evaluating with the path set `seen` solves the Kleene equations of the conditions |
| CycleGuard.GuardIsLeast | src/cost_gate/parsers/intrinsics.py:554-631 | And it is the least solution: below every assignment closed under the equations |
| CycleGuard.ConditionsAreTheLeastFixedPoint | src/cost_gate/parsers/intrinsics.py:554-631 | While the depth limit is not hit, the evaluator itself is exactly that least fixed point, for systems whose `Equals` operands contain no conditions |
| CycleGuard.DecidedMeansForced | src/cost_gate/parsers/intrinsics.py:554-631 | At any depth and under any path set a decided condition is one the equations force |
| DepthLimit.DepthIsIrrelevant | src/cost_gate/parsers/intrinsics.py:229-248 | A term without conditions resolves to the same result at any two depths that leave room for its nesting |
| DepthLimit.ShallowConditionsAreExact | src/cost_gate/parsers/intrinsics.py:554-631 | The evaluator is the least fixed point for every template whose conditions, followed along the path of names, nest no deeper than the limit: a condition on the template alone |
| DepthLimit.SmallSystemsFit | src/cost_gate/parsers/intrinsics.py:554-631 | That holds whenever the number of conditions times one more than their nesting is at most 60 |
| Pointers.UnescapeInvertsEscape | src/cost_gate/domain/resources.py:32-38 | Decoding `~1` then `~0` (RFC 6901 section 4) recovers every token |
| Pointers.PathSplits | src/cost_gate/domain/resources.py:41-47 | A JSON Pointer split at `/` is an empty piece followed by its escaped tokens |
| Pointers.PropertyPathIsInjective | src/cost_gate/domain/resources.py:41-47 | Different token sequences have different JSON Pointers (RFC 6901 section 3) |
| Pointers.AtOrBelowIsTokenPrefix | src/cost_gate/diff/metadata.py:107-114 | The test "equal, or starts with prefix and a slash" holds if and only if one token sequence is a prefix of the other |
| Pointers.HasPropertyFindsSubtrees | src/cost_gate/domain/resources.py:178-188 | `has_property` is true exactly when some flattened leaf lies in the named subtree |
| Metadata.CollectEntries | src/cost_gate/diff/metadata.py:91-97 | However a dictionary yields its keys, the entries gathered are exactly those whose prefix matches |
| Metadata.DescribeByCandidates | src/cost_gate/diff/metadata.py:83-104 | Gathering, sorting and taking the last yields the entry of the longest matching prefix, the type's own on a tie |
| Metadata.DeepestTokensWin | src/cost_gate/diff/metadata.py:83-104 | In terms of tokens: an entry that matches and than which no deeper one matches is the one described |
| Metadata.DeepestTokensInFields | src/cost_gate/diff/metadata.py:83-104 | The same for the entries as the table lists them under a type |
| Metadata.UncoveredIsAssumedCostly | src/cost_gate/diff/metadata.py:98-102 | A property that no entry covers is taken to cost something unless its type is declared free of cost, and nothing is said of replacement |
| Flatten.PropertyStore.Write | src/cost_gate/parsers/normalize.py:122-123 | Dictionary assignment on the ordered output: the new contents, no path twice |
| Flatten.Flatten | src/cost_gate/parsers/normalize.py:94-123 | The recursive in-place walk leaves in the store exactly what the threading definition computes from its old contents |
| Flatten.FlattenStaysWithinCap | src/cost_gate/parsers/normalize.py:102-103 | For any template whatever the output never exceeds 5,000 entries |
| Flatten.ResolveKeepsKeys | src/cost_gate/parsers/intrinsics.py:229-471 | Resolution yields scalars, lists of texts or parts of the template, so mappings reached by the walk still have distinct keys |
| Flatten.NatTextIsInjective | src/cost_gate/domain/resources.py:41-47 | List indices written in decimal never coincide |
| FlattenLaws.FlattenWritesEachLeafOnce | src/cost_gate/parsers/normalize.py:94-123 | On string-keyed trees the output is the sequence of leaves in order, cut at the cap, each written once at its own path: nothing is overwritten |
| FlattenLaws.FlattenIsLookup | src/cost_gate/parsers/normalize.py:94-123 | Within the cap a JSON Pointer maps to a value in the output if and only if walking the resolved tree along its tokens finds that value |
| FlattenLaws.EveryPathIsAPointer | src/cost_gate/parsers/normalize.py:122-123 | Every path written is the JSON Pointer of a non-empty token sequence |
| FlattenFields.EveryPropertyRecords | src/cost_gate/parsers/intrinsics.py:639-674 | Every property written records the term at its pointer: a scalar with its provenance, a reference with its attribute, an unknown with its kind and its scenario values |
| FlattenFields.NoFractions | src/cost_gate/parsers/intrinsics.py:666-674 | No property is a binary fraction |
| FlattenFields.EntriesAreVisitedInOrder | src/cost_gate/parsers/normalize.py:109-121 | The entries of a mapping are walked in order of their keys |
| FlattenFields.SixtyMappings | src/cost_gate/parsers/normalize.py:102-103 | A value below sixty mappings is written, one below sixty-one is not |
| FlattenFields.FiveThousandAreWritten | src/cost_gate/parsers/normalize.py:102-103 | Of more than 5,000 leaves exactly 5,000 are written |
| FlattenLaws.NoTraceExactly | src/cost_gate/parsers/normalize.py:94-123 | While there is room, a property adds nothing to the output if and only if its chain ends in `AWS::NoValue`, in a picked call, or in a structure all of whose members do the same (or it lies too deep) |
| FlattenLaws.CallVanishesExactly | src/cost_gate/parsers/normalize.py:94-123 | So a property whose chain ends in no structure of the template leaves a trace unless it ends in `AWS::NoValue` or in a picked call |
| FlattenLaws.SelectedCallVanishes | src/cost_gate/parsers/normalize.py:105-123 | For instance, a call that `Fn::Select` picks out of a literal list leaves no trace in the output, as if never written |
| DeployedProperties.FlattenedIsDeployed | src/cost_gate/parsers/normalize.py:94-123 | End to end, for lawful properties: a scalar in the flattened output, cut or not, is the scalar that the deployed properties hold under the same pointer, and a reference names what they hold there |
| Tags.ExtractTags | src/cost_gate/parsers/normalize.py:126-150 | The two gathering loops and the sorted pairing compute the stated function of the flattened entries |
| Tags.TagsAreRecovered | src/cost_gate/parsers/normalize.py:126-150 | After flattening, a tag list of literal strings is read back exactly; of tags with the same key the one whose index comes last as text wins |
| Tags.NineBeatsTen | src/cost_gate/parsers/normalize.py:126-150 | For instance, of two tags with one key at index 9 and 10 the earlier is read back |
| Tags.DistinctTagsRoundTrip | src/cost_gate/parsers/normalize.py:126-150 | With distinct keys the tags read back are precisely those of the template, whatever else the properties hold |
| Resources.CheckUniqueKeys | src/cost_gate/domain/resources.py:205-213 | The validator's loop accepts a graph if and only if no key occurs twice |
| Resources.KeyTextIsInjective | src/cost_gate/domain/resources.py:50-65 | A rendered key identifies its resource when stack names contain no slash |
| Matching.Offers.Offer | src/cost_gate/diff/matching.py:121-128 | An offer is recorded exactly when the pair is compatible and its rendered identity is new |
| Matching.GroupBy | src/cost_gate/diff/matching.py:131-154 | Grouping in place puts every resource with a key into the group of that key, and nothing else |
| Matching.Candidates | src/cost_gate/diff/matching.py:116-163 | The three tiers together offer exactly the candidate pairs: none missing, none unjustified, each once |
| Matching.AssignGreedily | src/cost_gate/diff/matching.py:174-187 | The greedy loop takes a one-to-one set and rejects a candidate only for a conflicting one already taken |
| Matching.MatchResources | src/cost_gate/diff/matching.py:166-199 | The result is a stable one-to-one matching sorted by proposed key, with the unmatched rest on either side, whenever rendered keys tell resources apart; for stack names without a slash, no tier offers any pair of a removed and an added resource |
| MatchingLaws.StableIsUnique | src/cost_gate/diff/matching.py:105-108 | There is only one stable set of candidates, however it is found |
| MatchingLaws.MatchingIsDetermined | src/cost_gate/diff/matching.py:166-199 | Two results for the same graphs are equal |
| MatchingLaws.MatchingIgnoresInputOrder | src/cost_gate/diff/matching.py:166-199 | Permuting either graph changes no match, and only permutes what is added and removed |
| MatchingLaws.MatchingIsSwapSymmetric | src/cost_gate/diff/matching.py:166-199 | Swapping the graphs transposes the matching: same pairs, same methods, added and removed exchanged |
| MatchingLaws.MatchingPartitions | src/cost_gate/diff/matching.py:189-199 | Matched and removed partition the baseline, matched and added the proposal; pairs share stack and type |
| MatchingLaws.NoBlockingPair | src/cost_gate/diff/matching.py:174-187 | Of every pair a tier offers, one end is held by a match that does not come later in the order, so the pair is never reported as removed and added |
| MatchingLaws.SelfMatching | src/cost_gate/diff/matching.py:166-199 | A graph matched with itself pairs every resource with itself, even when construct paths repeat |
| MatchingLaws.RenameIsRecognised | src/cost_gate/diff/matching.py:130-139 | With distinct construct paths any change of logical IDs pairs each resource with its renamed self at the first tier, nothing added or removed |
| Matching.NoSlashTellsApart | src/cost_gate/diff/matching.py:124-128 | Stack names without a slash are enough for the rendered identities to be distinct |
| Pairing.StripHashExactly | src/cost_gate/diff/matching.py:41-72 | Stripping yields a base exactly for a name that is this base, not empty, followed by eight of the characters 0-9 and A-F |
| Pairing.SinglePairExactly | src/cost_gate/diff/matching.py:130-199 | Two single resources are paired if and only if they share stack and type and, in this order of tiers, a construct path that is not empty, a logical ID, or the base of a hashed one; otherwise one is removed and one added |
| Pairing.WinnersComeFirst | src/cost_gate/diff/matching.py:104-108 | Of every pair a tier offers, one end is held by a match of a better tier or, within the tier, of no later rendered keys |
| Pairing.MatchesAreListedByKey | src/cost_gate/diff/matching.py:189-199 | The matches are listed by stack and logical ID of the proposed resource |
| Diff.SortedPaths | src/cost_gate/diff/engine.py:47 | Sorting a set does not depend on the order in which it yields its members |
| Diff.PropertyDeltas | src/cost_gate/diff/engine.py:33-62 | The loop over the united paths yields one delta for each path whose values differ, in path order |
| Diff.Compare | src/cost_gate/diff/engine.py:120-152 | The change set consists of the changes of the matched pairs, the removals and the additions, sorted, with the untouched pairs counted |
| DiffLaws.DiffRoundTrips | src/cost_gate/diff/engine.py:33-62 | Applying the deltas to the before map gives the after map, up to values the language treats as equal |
| DiffLaws.DiffRoundTripsExactly | src/cost_gate/diff/engine.py:33-62 | And exactly the after map when no boolean meets an integer |
| DiffLaws.TrueLooksLikeOne | src/cost_gate/diff/engine.py:50-51 | A change from `true` to `1` goes unnoticed |
| DiffLaws.NoDeltasIffEqual | src/cost_gate/diff/engine.py:33-62 | There are no deltas if and only if the maps have the same paths with equal values |
| DiffLaws.EveryChangeIsValid | src/cost_gate/domain/changes.py:55-61 | Every change that comparing builds, and every delta in it, passes its validator |
| Changes.EveryChangeSpeaks | src/cost_gate/diff/engine.py:65-117 | A change with two sides speaks of a matched pair: it is Replace if and only if some delta always replaces, NoCostChange if and only if none does, none is cost relevant and the logical ID is kept, and Modify otherwise; its deltas are exactly the differing paths in ascending order with both values and what the table says of each; former identity, method and confidence are those of the pair. A change with one side speaks of a removed or added resource |
| Changes.NothingGoesUnmentioned | src/cost_gate/diff/engine.py:120-152 | Every pair that differs in name or in some property, every removed and every added resource has its change |
| Changes.ChangesAreListedInOrder | src/cost_gate/domain/changes.py:171-173 | The changes come by stack, then type, then logical ID |
| Changes.SameValueInFields | src/cost_gate/diff/engine.py:50-51 | When two property values count as the same, field by field: a boolean is the integer it stands for, and evidence counts |
| DiffLaws.CompareConserves | src/cost_gate/diff/engine.py:120-152 | Baseline count is unchanged plus paired changes plus removed; proposed count is unchanged plus paired changes plus added |
| DiffLaws.SelfCompareIsEmpty | src/cost_gate/diff/engine.py:120-152 | Comparing a graph with itself reports nothing and counts everything as unchanged |
| DiffLaws.CompareReverses | src/cost_gate/diff/engine.py:74-152 | Comparing backwards mirrors every change, up to their order, and leaves as many resources untouched |
| Estimation.Merge | src/cost_gate/estimators/engine.py:68-87 | The merging loops collect reasons, assumptions and unknown inputs of both sides in first-seen order |
| Estimation.Pair | src/cost_gate/estimators/engine.py:162-172 | One component for every dimension either side mentions, in order |
| Estimation.SumKnown | src/cost_gate/domain/money.py:224-235 | Adding known amounts one at a time is the sum of the known amounts |
| Estimation.EstimateGraphs | src/cost_gate/estimators/engine.py:175-226 | Three loops over matches, removals and additions yield the sorted components of the whole pairing and totals derived from them |
| Components.EveryComponentSpeaks | src/cost_gate/estimators/engine.py:90-226 | Every component of a report prices one dimension of a matched pair, of a removed or of an added resource: both costs, their difference, one-time cost and range of the proposed side, the estimate type of the side that remains, and a confidence that is one side's and no higher than either's; or, where a side is not priced, nothing but the reasons why |
| Components.LastEstimateCounts | src/cost_gate/estimators/engine.py:50-61 | Of several estimates for one dimension of a resource the last one counts |
| Components.ComponentsAreListedById | src/cost_gate/estimators/engine.py:216 | The components are listed by identifier |
| Components.TotalsOfOneComponent | src/cost_gate/domain/cost.py:274-311 | What a single component adds to each total, by its estimate type |
| Components.TotalsAddUp | src/cost_gate/domain/cost.py:274-311 | The totals of a whole are the sums of the totals of its parts, one-time cost included |
| Components.ReportIsNoMoreCertain | src/cost_gate/domain/cost.py:342-364 | A report is no more certain than either side of any material component, and unknown where a side is not priced |
| Estimation.ReconcileReport | src/cost_gate/reporting/reconcile.py:23-77 | No problem is listed if and only if the report adds up in every respect that is checked |
| EstimationLaws.MergedMembers | src/cost_gate/estimators/engine.py:68-87 | A merged explanation says exactly what either side says, each thing once |
| EstimationLaws.BuiltComponentIsValid | src/cost_gate/estimators/engine.py:90-159 | Honest estimates make components that pass the component validator |
| EstimationLaws.EveryReportReconciles | src/cost_gate/domain/cost.py:148-195 | Every report has valid components, its totals reconcile (fixed plus usage-based is delta is the sum of known deltas), and it passes reconciliation if and only if its identifiers are distinct |
| EstimationLaws.UnknownsStayOutOfTheSums | src/cost_gate/domain/cost.py:274-311 | Unknown components move no monthly total; they are counted |
| EstimationLaws.RevertingNegatesTheEstimate | src/cost_gate/estimators/engine.py:175-226 | Swapping the graphs exchanges current and proposed totals, negates the delta and keeps the unknown count |
| SplitLaws.RevertingNegatesTheSplitExactly | src/cost_gate/domain/cost.py:274-311 | Swapping the graphs negates the fixed and the usage-based delta up to the drift of shared dimensions that change category, so it negates both if and only if that drift is zero |
| SplitLaws.KeptCategoriesDoNotDrift | src/cost_gate/domain/cost.py:274-311 | There is no drift where shared dimensions keep their category |
| SplitLaws.TurnedDimensionIsNotNegated | src/cost_gate/estimators/engine.py:90-159 | A dimension that turns from fixed at 10 into usage-based at 30 has fixed part 0 forwards and -20 backwards |
| PriceLaws.TotalsArePrices | src/cost_gate/estimators/engine.py:175-226 | When every dimension is priced, the current and proposed totals are the prices of the baseline and of the proposal, whatever the matching, and nothing is unknown |
| Identifiers.ComponentIdIsInjective | src/cost_gate/estimators/engine.py:64-65 | A component identifier determines resource and dimension for names as CloudFormation allows them |
| Identifiers.ReportAddsUpExactly | src/cost_gate/reporting/reconcile.py:69-72 | Reconciliation succeeds if and only if no removed resource's key is reused on the proposed side together with one of its dimensions |
| Identifiers.RetypedResourceIsRefused | src/cost_gate/reporting/reconcile.py:69-72 | A resource that changes type under the same name and shares a dimension name makes its report fail reconciliation |
| Policies.ReportConfidence | src/cost_gate/domain/cost.py:342-364 | The loop yields the worst confidence among material components, the best if none is material, `HIGH` if there are none |
| Policies.OneUnknownSinksConfidence | src/cost_gate/domain/cost.py:342-364 | A report has no confidence if and only if some component is unknown |
| Policies.ConfidenceOfOneMore | src/cost_gate/domain/cost.py:342-364 | What one more component does to a report that has some: where something is material only a material one counts, and only downwards; where nothing is, a material one replaces the confidence and an immaterial one can only raise it |
| Policies.ConfidenceIgnoresOrder | src/cost_gate/domain/cost.py:342-364 | Confidence depends on which components there are, not on their order or repetition |
| Policies.RequiredTagsMissing | src/cost_gate/policies/predicates.py:301-326 | The offenders are exactly the additions lacking a required tag, compared without regard to case |
| Policies.EvaluatePredicate | src/cost_gate/policies/predicates.py:118-336 | Each single predicate, by its own handler (collecting changes, budgets or offenders and asking whether there are any), decides as the condition means |
| Policies.EvaluateCondition | src/cost_gate/policies/predicates.py:66-110 | Evaluation agrees with the meaning of the condition tree, skips no child, keeps every leaf's evidence and repeats none within a group |
| Policies.PolicyEvaluationIsValidExactly | src/cost_gate/policies/engine.py:50-91 | A policy's evaluation passes its validator unless it fires under a description that is blank without being empty |
| GateFields.PolicyInFields | src/cost_gate/policies/engine.py:50-91 | A policy matches if and only if it concerns the environment and the application and its condition holds, and its evaluation then carries the policy's own identifier, action, severity, approver and description |
| GateFields.CeilingInFields | src/cost_gate/domain/enums.py:71-88 | Confidence is ordered unknown, low, medium, high, as `confidence_at_most` shows |
| GateFields.MissingTagsInFields | src/cost_gate/policies/predicates.py:301-326 | The rule matches if and only if an addition has, for some required key, no tag whose key is the same but for letter case |
| GateFields.MaterialInFields | src/cost_gate/domain/cost.py:342-364 | A dollar either way is material, and so is an unknown amount |
| Decisions.CombineResults | src/cost_gate/domain/decision.py:152-165 | The loop returns the highest of the results, `PASS` when there are none |
| Decisions.DecisionIsConsistent | src/cost_gate/domain/decision.py:182-222 | Every decision that is built satisfies the decision validator, with errors or without |
| Decisions.AddingNeverLowers | src/cost_gate/policies/engine.py:94-135 | Adding evaluations, anywhere, never lowers the result |
| Decisions.OrderIsIrrelevant | src/cost_gate/domain/decision.py:152-165 | Result and approvers depend on which evaluations there are, not on their order or repetition |
| Decisions.BlocksExactlyWhenAsked | src/cost_gate/domain/decision.py:97-103 | A decision stops the change if and only if a matched evaluation asks for approval or a block |
| Decisions.ApprovalNamesSomeone | src/cost_gate/policies/engine.py:122-134 | Required approval names at least one group, and exactly the groups of what matched |
| GateFields.ResultInFields | src/cost_gate/policies/engine.py:94-135 | The result is an error if there are errors, and otherwise the strictest of block, approval and warning that anything matched asks for |
| GateFields.LatticeInFields | src/cost_gate/domain/decision.py:152-165 | Of several results the highest in the order pass, warn, require approval, block, error stands |
| GateFields.ReasonsInFields | src/cost_gate/policies/engine.py:124-127 | The reasons are those of what matched, the most severe first and by identifier among equals |
| Decisions.ReconcileArtifact | src/cost_gate/reporting/reconcile.py:80-106 | No problem is listed if and only if report, decision and conventions agree |
| Decisions.BuiltDecisionAgrees | src/cost_gate/reporting/reconcile.py:80-106 | A decision built over the reported totals never disagrees with its artifact |
| GateLaws.PolarityDecides | src/cost_gate/policies/predicates.py:66-110 | A condition whose predicates sit under an even number of negations survives worse facts; under an odd number it survives better ones |
| GateLaws.PolicyKeepsFiring | src/cost_gate/policies/engine.py:50-91 | A negation-free policy that fires keeps firing on worse facts |
| GateLaws.GateIsMonotone | src/cost_gate/policies/engine.py:41-135 | Policies and budgets together: worse facts never lower the gate's result |
| GateLaws.NegationCanOpenTheGate | src/cost_gate/policies/predicates.py:74-78 | The hypothesis is needed: a negated rule about unknowns falls silent when an unknown is added |
| GateLaws.LargerBaselineSilencesPercent | src/cost_gate/policies/predicates.py:141-157 | Why current cost is held fixed: the same increase over a larger current cost silences a percentage rule |
| ConfidenceLaws.OneMoreIsWorseExactly | src/cost_gate/domain/cost.py:342-364 | One more component makes the facts worse if and only if it adds no current cost, no credit and no certainty, the last meaning that something was material already or the component is no more certain than the report |
| ConfidenceLaws.OneMoreKeepsTheGate | src/cost_gate/policies/engine.py:41-135 | Then it never lowers the result of the gate |
| ConfidenceLaws.CertaintyCanOpenTheGate | src/cost_gate/policies/predicates.py:66-110 | Otherwise it can: where nothing was material, a costly and certain component silences a rule about low confidence and takes the gate from that rule's action to `PASS` |
| Budgets.InScope | src/cost_gate/budgets/engine.py:39-60 | The loop totals exactly the components in scope: current, proposed, their difference, and the number unknown |
| Budgets.CrossedByLoop | src/cost_gate/budgets/engine.py:145-158 | The loop lists the thresholds below the utilisation, least severe first |
| Budgets.EvaluateBudgets | src/cost_gate/budgets/engine.py:85-142 | One evaluation for each budget that applies, measured against actual spend where it is known |
| BudgetFields.EvaluationInFields | src/cost_gate/budgets/engine.py:98-142 | Of each evaluation with a positive limit: headroom plus what is held against the limit (actual spend plus the delta where spend is known, the proposed cost otherwise) is the limit, and utilisation times the limit is a hundred times the limit less headroom; an action is crossed if and only if its threshold is set and use lies above it |
| BudgetFields.IdleChangeIsActual | src/cost_gate/budgets/engine.py:108-116 | A change that adds nothing is held against the limit at its actual spend alone |
| BudgetFields.EvaluationsInFields | src/cost_gate/budgets/engine.py:63-104 | There is an evaluation for exactly the budgets whose scope covers where the change is deployed or the context of some resource |
| BudgetFields.ScopedMembers | src/cost_gate/budgets/engine.py:39-60 | A component counts through the context of its own resource, or through the deployment's where the resource has none |
| Budgets.BudgetPolicyEvaluations | src/cost_gate/budgets/engine.py:168-193 | The loop emits the threshold and increase findings of each evaluated budget, looked up by identifier |
| BudgetFields.ThresholdFindingInFields | src/cost_gate/budgets/engine.py:196-255 | One finding where there is a utilisation: block, approval or warning by the most severe threshold passed, with the budget's severity and, for approval alone, its approver group |
| BudgetFields.IncreaseFindingInFields | src/cost_gate/budgets/engine.py:258-301 | One finding where there is a cap: the budget's own action if and only if the change adds more than the cap |
| BudgetLaws.EmptyScopeIsTheReport | src/cost_gate/budgets/engine.py:39-60 | A budget over everything measures the report's own totals and unknown count |
| BudgetLaws.ScopesPartition | src/cost_gate/config/budgets.py:65-74 | The budgets for every value of one dimension and the unattributed remainder add up to the whole |
| BudgetLaws.OrderMeansPrefix | src/cost_gate/config/budgets.py:86-105 | The thresholds are in the order that loading insists on if and only if, at every utilisation, those crossed are the first of those configured |
| BudgetLaws.LastCrossedIsWorst | src/cost_gate/budgets/engine.py:219-220 | The last crossed threshold is the most severe one |
| BudgetLaws.MoreUseIsNoMilder | src/cost_gate/budgets/engine.py:145-158 | Higher utilisation crosses at least as much and its last crossed threshold is no milder |
| BudgetLaws.MoreUseKeepsFindings | src/cost_gate/budgets/engine.py:196-301 | Using more of a budget turns no finding into a milder one |
| BudgetLaws.OverTheLimit | src/cost_gate/budgets/engine.py:111-116 | Utilisation exceeds 100 % if and only if headroom is negative, and headroom plus what is measured is the limit |
| BudgetLaws.ZeroLimitIsSilent | src/cost_gate/budgets/engine.py:111-116 | A limit of zero is never passed, whatever the change costs |
| BudgetLaws.FindingsAreValidExactly | src/cost_gate/budgets/engine.py:196-301 | A budget's findings pass the evaluation validator unless one asks for approval and the budget names an empty group |
| BudgetLaws.ValidBudgetMeasuresUp | src/cost_gate/config/budgets.py:148-160 | For a budget that loads: its evaluation passes the validator, the thresholds crossed are the first of those configured, there is no utilisation only without a positive limit, and a scope that costs nothing or a change that adds nothing has no finding |
| BudgetLaws.LoadedBudgetsMeasureUp | src/cost_gate/config/budgets.py:163-191 | In a file that loads every evaluation is judged by the very budget it measured, and crosses the first few of its thresholds |
| Cache.ComputeIndex | src/cost_gate/pricing/keys.py:54-62 | The hashable form: attributes in order of name |
| Cache.IndexIsInjective | src/cost_gate/pricing/keys.py:54-62 | Different keys never share an index |
| Cache.CachingProvider.Recall | src/cost_gate/pricing/cache.py:72-78 | An entry answers while younger than `ttl` and is forgotten and counted once it is not |
| Cache.CachingProvider.Miss | src/cost_gate/pricing/cache.py:80-83 | A miss asks the inner provider once and stores its answer with the clock read afterwards |
| Cache.CachingProvider.Lookup | src/cost_gate/pricing/cache.py:70-86 | Each answer is the inner provider's own or was stored less than `ttl` ago for an equal key; hits + misses = calls, misses = inner calls, expirations <= misses; a pure inner provider is refined exactly |
| Cache.CachingProvider.Serve | src/cost_gate/pricing/cache.py:70-86 | Over any run of lookups against a pure provider the cache is invisible and the counters add up |
| Cache.ChainTakesFirstQuote | src/cost_gate/pricing/cache.py:114-131 | The chain's answer is the first that is not a miss, or else the first miss |
| Cache.ChainInFields | src/cost_gate/pricing/cache.py:114-131 | A quote or a broken provider ends the search, a provider that finds nothing does not, and an empty chain finds nothing |
| Cache.ChainLookup | src/cost_gate/pricing/cache.py:114-131 | Caching any members of a chain of pure providers leaves every answer as it was |
| Escaping.StripCleans | src/cost_gate/reporting/escaping.py:67-75 | Stripped text holds no control, zero-width or line-breaking character, and clean text is left alone |
| EscapingFields.CharacterInFields | src/cost_gate/reporting/escaping.py:51-75 | What stripping makes of each character: nothing, a space, or itself |
| EscapingFields.ControlsInFields | src/cost_gate/reporting/escaping.py:54 | The control characters are the 32 lowest but tab, line feed and carriage return, and DEL |
| EscapingFields.ZeroWidthsInFields | src/cost_gate/reporting/escaping.py:55-60 | The zero-width and direction characters, one by one |
| EscapingFields.SpecialsInFields | src/cost_gate/reporting/escaping.py:89-104 | What escaping makes of each character |
| EscapingFields.CutInFields | src/cost_gate/reporting/escaping.py:78-86 | Text is cut if and only if it is longer than a limit above one, to exactly that limit, ending in an ellipsis |
| Escaping.EscapeMarkdownByPasses | src/cost_gate/reporting/escaping.py:89-104 | The entity loop and the later passes amount to encoding each character once |
| Escaping.EscapeIsReversible | src/cost_gate/reporting/escaping.py:89-104 | Text that is not cut can be decoded back to the control-stripped input |
| Escaping.MarkupIsDefused | src/cost_gate/reporting/escaping.py:89-104 | Cut or not, every `@` in escaped text is followed by an (at most cut short) mention break, and angle brackets occur only inside one |
| Escaping.CellHasNoPipe | src/cost_gate/reporting/escaping.py:107-114 | A table cell never contains a raw pipe, even when cut |
| Escaping.CellIsReversible | src/cost_gate/reporting/escaping.py:107-114 | A table cell that is not cut can be decoded too |
| Escaping.CellLengthExactly | src/cost_gate/reporting/escaping.py:107-114 | A cell is at most three times as long as its limit, and within it if and only if the escaped text and four more characters per pipe fit, or, when the text is cut, no pipe is kept |
| Escaping.TwoPipesMakeTwelve | src/cost_gate/reporting/escaping.py:107-114 | For instance, two pipes under a limit of four make twelve characters |
| CodeSpans.FenceHolds | src/cost_gate/reporting/escaping.py:117-135 | The first backtick string of the fence's length after the opening fence is the closing one (CommonMark 0.31.2 section 6.1) |
| CodeSpans.CodeIsContained | src/cost_gate/reporting/escaping.py:117-135 | The rendered span opens and closes with its fence and holds the padded text in between, for any text that is not blank |
| EscapingFields.BlankIsProse | src/cost_gate/reporting/escaping.py:128-130 | Text with nothing to show is escaped as prose, any other is fenced |
| CodeSpans.SpanShowsText | src/cost_gate/reporting/escaping.py:131-135 | A reader sees the text itself if and only if it does not both begin and end with a space |

## Left out

- Intrinsics.ResolveSplit: an empty delimiter makes the source raise `ValueError`; the model returns an unknown there.
- Templates.Host: `str` of a list or mapping, `int` of a string and the text of a float are functions of the host language, taken as parameters; a float that is infinite or not a number is not modelled.
- Completeness.ResolutionIsExact: a call fed with a picked call is outside the statement in general; for `Join` that case is decided in `JoinIsKnownExactly`, for `Equals` in `OperandComparesExactly`.
- Soundness.ResolutionIsSound: mappings are taken to be literal data, as CloudFormation requires; expressions outside the resolved fragment, and the text of a scalar other than a string, mean whatever the environment says.
- Templates.Scalar: an unquoted date, which the YAML safe loader turns into a value of its own type, has no counterpart here.
- DeployedProperties.FlattenedIsDeployed: walks the deployed lists as written, an element removed by `AWS::NoValue` keeping its place.
- CycleGuard.ConditionsAreTheLeastFixedPoint: says nothing about expressions that the depth limit of 60 cuts short; `DecidedMeansForced` covers those in one direction, and `DepthLimit` says which templates have none.
- Flatten.Flatten: the reason and rendered expression of an unresolved value are one opaque text; mapping keys are strings, so `sorted(key=str)` is sorting by key.
- Matching.MatchResources: states stability only when rendered keys tell resources apart, which the source needs as well because it remembers offers by rendered text.
- Matching.StripHashSuffix: the regular expression's treatment of newlines (tolerated at the end, not matched in the base) is not modelled.
- Estimation.EstimateGraphs: estimators are abstract functions from a resource to dimension estimates; services, units, quantities, regions and pricing sources are not carried, nor is the summary of unknowns beyond the count.
- Estimation.SumKnown: money is an exact real; the 28-digit decimal context, currencies and rounding for display are not modelled.
- Policies.Matches: tags are lower-cased as ASCII; thresholds are exact reals.
- Policies.EvaluateCondition: descriptions and rendered inputs are presentation; evidence is opaque text, and its cap of ten entries per policy is left out.
- Decisions.BuildDecision: an absent and an empty approver group are one value, which the source never tells apart.
- Cache.CachingProvider.Lookup: the inner provider and the clock are arbitrary functions of call number and reading number; provider names and catalog metadata are not modelled.
- CodeSpans.Code: whitespace is the set that `str.strip` removes; rendering beyond section 6.1 of CommonMark is not modelled.
- The fourteen service estimators, the price catalog, usage profiles and recommendations: lookups without interaction.
- Git, CDK, GitHub, AWS and Cost Explorer adapters, the command line, file and YAML loading, hashing and lock files: input and output.
- Markdown and console layout, reason texts and truncation of rendered expressions: presentation.
- Attribution from tags to contexts, schedules, approval status and accuracy summaries: short local reasoning that would only add easy members.
