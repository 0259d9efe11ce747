# DynamORM in Dafny

DynamORM turns Go-level conditions and updates into DynamoDB expression text and runs paged, batched, retried and
concurrent protocols against the service. This project models that code in Dafny and proves what its callers rely on.

The service is modelled as small nondeterministic steps: a table is a map from key to item, a paged read takes any next
run of items and filters it afterwards, a batch call may leave any part of its requests unprocessed, and every call may
fail. Statements hold for every choice the service makes.

| files | what they model |
|---|---|
| `Text`, `Attributes` | Go's string helpers over ASCII text; attribute values |
| `ConditionGrammar`, `ConditionMeaning` | the condition grammar of the service as a lexer and recursive-descent parser over characters; what a parsed condition says once its placeholders are looked up |
| `ConditionPrinter`, `Placeholders`, `Operators`, `ExprBuilder`, `BuilderRuns`, `GroupClash`, `LaterCalls`, `BuilderCases` | the expression builder: printing, placeholders, which condition an operator's spelling asks for, the `Builder` class, whole runs, when overwritten bindings and later calls are harmless, and runs that go wrong |
| `ConditionMerge`, `UpdateExecute` | conjoining raw conditions; the condition and the update text an update is sent with |
| `UpdateText`, `UpdateMeaning`, `UpdateClauses`, `UpdateGrammar`, `UpdateReading`, `UpdateAction`, `UpdateFunctions` | update text: printing, what its clauses ask for, the clauses a builder collects, the update grammar of the service as a parser, that the text has one reading, when the service takes it and what it does to an item, list_append and if_not_exists from their arguments to the item |
| `UpdateReparse`, `UpdateEncryption`, `UpdateSealing`, `SealedRuns` | the re-parser of update text, the pass that encrypts assigned values in place, and what it sends for a builder's own calls |
| `IndexSelection`, `QueryCompile`, `KeyConditions`, `KeyLegality`, `FilterOrder` | choosing an index, dividing conditions between key condition and filter, and when these are ones the service accepts |
| `OptimisticLocking` | concurrent clients and the version guard |
| `KeyedTables`, `Chunks`, `BatchGet`, `TableWrites`, `BatchWrite`, `TableCopy` | batch reads and writes, retries, parallel chunks, table copy |
| `Documents`, `PagedReads`, `QueryPath`, `FirstFastPath`, `CursorWalk` | reading a document path, limits over paged reads, `First` and its two paths, cursors |
| `Base64`, `CursorCodec`, `CursorText`, `ValueEncryption` | the cursor and encrypted-value codecs, envelopes, item passes |
| `TokenBucket`, `BatchLimiter` | the rate limiter and the batch concurrency limiter |
| `Sorting`, `SchemaEquivalence`, `Naming` | comparing model descriptions; attribute names |

Where a promised property is false of the code, the code is modelled as it is, a lemma names an input on which it fails,
and another gives the exact condition under which it holds:

- A filter group overwrites bindings, its builder counts from one again, and the counters it is added to do not move:
  a group behind a condition takes the condition over (`BuilderCases.GroupOverFilter`; exactly when it does not:
  `GroupClash.GroupKeepsExactly`), and a condition behind a group takes the group over
  (`BuilderCases.FilterOverGroup`; exactly when it does not: `LaterCalls.CallKeepsExactly` for one later call,
  `LaterCalls.SettledExactly` for every run of them).
- Validation accepts a list index in a field (`tags[0]`), and naming binds it into the attribute name, so that a
  condition or an ADD on one, and a SET on a path with one further up, reach an attribute literally called `tags[0]`:
  `BuilderCases.ElementFilter`, `BuilderCases.ElementAdd`, `BuilderCases.ElementSet`; exactly when a name is meant as it
  is written: `Placeholders.RespellingExact`.
- Two updates of one place are accepted and printed, and the service refuses the text: `BuilderCases.SetTwice`; exactly
  when it does: `UpdateAction.LegalUpdateExactly` and, in terms of the calls of a run, `BuilderRuns.Run`.
- A second spelling of a reserved word rebinds its placeholder: `GroupClash.RespellingTakesOver` and
  `Placeholders.RespellingExact`.
- An update function on a field that validation rejects is stored under a placeholder bound nowhere:
  `BuilderCases.RejectedField` and `ExprBuilder.Builder.AddUpdateFunction`.
- ADD and DELETE reach inside an encrypted attribute (`ADD secret.x` with `secret` encrypted), and REMOVE removes one:
  `BuilderCases.NestedAdd` and `SealedRuns.LeftAloneExactly`.
- A Where condition behind an OR filter binds to the last AND-run: `FilterOrder.DisagreesWithOr` and
  `FilterOrder.WhereBehindFilterExact`.
- `UpdateBuilder.Execute` ignores the stored OR operator, `ExecuteWithResult` does not: `UpdateExecute.OrIgnored` and
  `UpdateExecute.SentAgree`.
- The key condition of a compiled query need not be one the service accepts: `KeyLegality.InequalityKey` (an operator
  that is not allowed, on the path that chooses an index), `KeyLegality.RangeKey` (two comparisons on the sort key),
  `KeyLegality.BorrowedKey` (a sort key the index does not have); exactly when it is: `QueryCompile.LegalExactly`, and
  for each path `KeyLegality.BestLegal` and `KeyLegality.ExplicitLegal`. Nor need the filter be: with an index given, an
  inequality on its sort key goes there (`KeyLegality.InequalityFilter`), and so does a comparison spelt as a word, `LT`
  for `<` (`KeyLegality.SpellingFilter`; exactly which spellings do: `KeyLegality.ExplicitSpelling`); exactly when the
  filter is accepted: `QueryCompile.FilterExactly`.
- An IN condition over an empty list has no readable text: `ConditionPrinter.EmptyInUnreadable`.
- First's GetItem path can differ from its Query path: `FirstFastPath.TwiceDiffers`, `FirstFastPath.SpellingDiffers`,
  `FirstFastPath.ModelDiffers` and `FirstFastPath.FastPathExact`.
- A cursor does not restore NULL false or nil string and number sets: `CursorCodec.RoundTripExact`. The encrypted-value
  codec turns NULL false into true and empty string and number sets into nil ones: `ValueEncryption.CanonicalExact`.
- The token bucket admits one more call in a window than its burst and refills: `TokenBucket.WindowBoundIsTight`.

The comment on `Clone` promises a deep copy; attribute values are in fact shared, which the model's values make
unobservable. An index without a sort key is given the table's (`pkg/query/query.go:1764-1769`), and
`QueryCompile.KeysFor` follows the code in that.

Words used below: a field is clear when validation accepts it and its parts, it holds no list index, and adding it
respells no reserved word in use; a vocabulary is a set of accepted path parts without list indexes in which no reserved
word is spelled two ways, which is what a caller has to keep to over a whole run. A filter group fits the bindings it is
added to when shared placeholders agree and it uses none with a number beyond the counters.

## Model

| member | source | states |
|---|---|---|
| `ConditionPrinter.ReadCondition` | internal/expr/builder.go:492-621 | every text the condition printer can form, except `IN ()`, is read by the service grammar as exactly the condition it was formed from, BETWEEN included |
| `ConditionPrinter.EmptyInUnreadable` | internal/expr/builder.go:573-594 | an IN condition over an empty list is printed as a text that is no condition at all |
| `Operators.SaidExactly` | internal/expr/builder.go:492-621 | for every operator spelling and value that pass validation: the builder accepts a condition if and only if the spelling, in any letter case, is the service's own for a comparator or a function, `!=`, a comparator's name in words, `BETWEEN`, `IN`, `EXISTS` or `NOT_EXISTS`, with a value that fits it; and the condition it is said to be is the one the service's reading of that spelling gives, and no other |
| `Operators.TextAsAsked` | internal/expr/builder.go:492-621 | the text printed for a clear field is parsed by the service as the comparison, range, list or function call that was asked for, operands in order, an IN over an empty list aside |
| `ConditionMeaning.FlatParses` | internal/expr/builder.go:398-407 | a flat run of conditions and AND/OR operators is read with AND binding tighter than OR |
| `ConditionMeaning.FlatEval` | internal/expr/builder.go:398-407 | a flat run holds exactly when every condition of some maximal AND-run holds |
| `ConditionMeaning.FlatAllAnd` | internal/expr/builder.go:392-395 | joined by AND alone, a run is the conjunction of its conditions |
| `ConditionMeaning.ParenthesisedAtom` | internal/expr/builder.go:208-223 | a parenthesised group keeps its meaning next to any operator |
| `ConditionMeaning.DenotesKept` | internal/expr/builder.go:624-716 | a text keeps its meaning under later bindings as long as none of its placeholders is rebound |
| `ConditionMeaning.DenotesUnique` | internal/expr/builder.go:386-442 | a condition text has one meaning under given bindings |
| `ConditionMerge.MergeConditionExpressions` | pkg/query/query.go:282-323 | fails exactly on a reused placeholder or an unconvertible value; otherwise gives the conjoined text and binds base and raw values, nothing else; after a failure the map it was given keeps every earlier value |
| `ConditionMerge.BindValues` | pkg/query/query.go:303-319 | binding one raw condition's values fails exactly on a taken placeholder or an unconvertible value, and leaves every earlier value as it was either way |
| `ConditionMerge.MergeKeepsGuard` | pkg/query/query.go:282-323 | for any raw texts, top-level ORs included, the merged text reads as base AND raw1 AND ... AND rawN, so the base condition stays necessary |
| `ConditionMerge.MergedDenotes` | pkg/query/query.go:286-296 | the merged text parses to the nested conjunction of the parts |
| `ConditionMerge.MergedHolds` | pkg/transaction/builder.go:763-788 | whichever of the texts are absent, the merged text holds exactly when the base and every raw condition hold |
| `ConditionMerge.ConjoinHolds` | pkg/query/update_builder.go:358-365 | `(a) AND (b)`, or the one that is not empty, holds exactly when both hold |
| `Placeholders.NameMeans` | internal/expr/builder.go:624-680 | a clear name gets a reference that means its attribute path, list indexes being steps of a path, and no earlier binding changes |
| `Placeholders.NameLiteral` | internal/expr/builder.go:624-680 | a name that respells nothing, list index or not, gets a reference that takes its parts for attribute names as they are written |
| `Placeholders.LiteralExactly` | pkg/validation/field_validator.go:232-265 | that is what the field stands for exactly when it holds no list index |
| `Placeholders.RespellingExact` | internal/expr/builder.go:624-680 | for every name, dotted or not, accepted or not: the reference it gets means it and no earlier binding changes if and only if it is accepted part by part, holds no list index and respells no reserved word in use |
| `Placeholders.BindAllFresh` | internal/expr/builder.go:690-716 | value placeholders are fresh: earlier values stay, each new one means its value, and none beyond the counter is bound |
| `Placeholders.ConditionDenotes` | internal/expr/builder.go:492-621 | the text printed for field, operator and values means that condition under the bindings made for it |
| `GroupClash.RebindingExact` | internal/expr/builder.go:208-214 | a condition keeps its meaning under other bindings if and only if these agree on the placeholders it is written with |
| `GroupClash.GroupKeepsExactly` | internal/expr/builder.go:208-223 | a condition stored before a group survives its bindings if and only if they leave its placeholders alone |
| `GroupClash.GroupTakesOver` | pkg/query/query.go:2248-2280 | texts and bindings at the point where `x = v` is followed by a group `y = w`: the first condition says `y = w` as well |
| `BuilderCases.GroupOverFilter` | pkg/query/query.go:2248-2280 | concrete failing run: on a builder with `x = v`, a group built as `y = w` makes the emitted filter say `y = w` twice and nothing of `x` |
| `BuilderCases.FilterOverGroup` | pkg/query/query.go:2248-2280 | concrete failing run in the other order: a group built as `y = w` and then `x = v` make the emitted filter say `x = v` twice and nothing of `y` |
| `LaterCalls.CallKeepsExactly` | internal/expr/builder.go:624-716 | a condition already stored, a group's own included, keeps its meaning under one later Add call, successful or not, if and only if the call issues none of its placeholders for something else |
| `LaterCalls.SettledExactly` | internal/expr/builder.go:208-223 | it keeps its meaning under every run of later calls on accepted fields that respell nothing if and only if its placeholders carry no number beyond the builder's counters, as long as validation lets callers go on with new fields and a second value |
| `LaterCalls.FitsSettled` | internal/expr/builder.go:208-223 | a group that fits the bindings it is added to is settled there |
| `GroupClash.RespellingTakesOver` | internal/expr/builder.go:650-653 | concrete failing input: a second spelling of a reserved word takes over the first one's placeholder |
| `ExprBuilder.Builder.AddNameSecure` | internal/expr/builder.go:624-680 | names a path part by part, reuses any placeholder of a bound name, and stops at an invalid part |
| `ExprBuilder.Builder.AddValueSecure` | internal/expr/builder.go:690-716 | binds an accepted value to the next placeholder and nothing otherwise |
| `ExprBuilder.Builder.BuildCondition` | internal/expr/builder.go:492-621 | accepts exactly the validated shapes, names the field first, binds the operands in order up to the first that fails, and prints them; which condition an operator stands for is `Operators.SaidExactly` |
| `ExprBuilder.Builder.AddKeyCondition` | internal/expr/builder.go:185-192 | stores the text made for the field, operator and operands, which says what was asked; every stored text keeps its meaning when the field is clear |
| `ExprBuilder.Builder.AddFilterCondition` | internal/expr/builder.go:195-205 | the same for a filter, stored behind its operator, the first one without |
| `ExprBuilder.Builder.AddConditionExpressionWithOp` | internal/expr/builder.go:373-383 | the same for a write condition behind its operator; bindings only grow |
| `ExprBuilder.Builder.AddGroupFilter` | internal/expr/builder.go:208-223 | overwrites bindings with the group's; stored meanings survive when shared placeholders agree, and the group's own, and with it all of the builder's, is safe for later calls when the group fits |
| `ExprBuilder.ParseListIndexPrinted` | internal/expr/builder.go:233-277 | printing an element of a list field and parsing it back gives the field and the index |
| `ExprBuilder.ParseListIndexExactly` | internal/expr/builder.go:233-277 | a field without a bracket, or without one closing at its end, is taken as it is; any other is an element of a list exactly when it is a non-empty name and a decimal number that fits an int in brackets behind it, and an error otherwise; SET and REMOVE reach an element for just the fields that name one |
| `ExprBuilder.Builder.AddUpdateSet` | internal/expr/builder.go:280-310 | adds exactly one SET clause that assigns the value to the attribute or element named; this clause and all stored texts do and say what they were made for, list indexes inside the path included, and no binding is changed, if and only if the field is clear |
| `ExprBuilder.Builder.AddUpdateAdd` | internal/expr/builder.go:313-326 | the same for one ADD clause |
| `ExprBuilder.Builder.AddUpdateRemove` | internal/expr/builder.go:329-349 | the same for one REMOVE clause on the attribute or element the field names |
| `ExprBuilder.Builder.AddUpdateDelete` | internal/expr/builder.go:352-365 | the same for one DELETE clause whose value is the converted set |
| `ExprBuilder.Builder.AddUpdateFunction` | internal/expr/builder.go:823-881 | one SET clause, and stored effects grown by what the arguments ask for: list_append of the field's attribute and the value when the first argument is the field's name, of the value and the attribute when the second is, of both values in order otherwise, or if_not_exists on the attribute with the second argument; the field is named even when the call then fails, and is never rejected, so stored texts stay sound if and only if it is clear, which a rejected field is not |
| `ExprBuilder.FormSaid` | internal/expr/builder.go:834-876 | the form chosen for an accepted call, over the values bound for it, assigns what its arguments say |
| `ExprBuilder.FunctionAccepted` | internal/expr/builder.go:823-881 | a call is accepted exactly when it is one of the two functions with two arguments and every argument bound as a value is accepted |
| `UpdateFunctions.Call` | internal/expr/builder.go:823-881 | end to end, from the arguments to the item: performing the text Build prints for one call on an attribute leaves the old list followed by the given one, behind it, or the two given lists in order, and for if_not_exists the old value if there is one and the default otherwise |
| `BuilderCases.RejectedField` | internal/expr/builder.go:864-876 | failing input: for every rejected field, if_not_exists succeeds and Build prints `SET #invalid = if_not_exists(#invalid, :v1)` with `#invalid` bound nowhere |
| `BuilderCases.ElementFilter` | internal/expr/builder.go:624-680 | failing input: for every accepted field of one part with a list index, the emitted filter compares an attribute that is literally called so |
| `BuilderCases.ElementAdd` | internal/expr/builder.go:313-326 | failing input: ADD on a field with a list index adds to an attribute literally called so |
| `BuilderCases.ElementSet` | internal/expr/builder.go:280-310 | failing input: SET on a path with a list index above its last step (`rows[0].x`) assigns inside an attribute called `rows[0]` |
| `BuilderCases.SetTwice` | internal/expr/builder.go:280-310 | failing input: two SETs of one attribute are accepted and printed, and the service does not take the text |
| `ExprBuilder.Builder.BuildUpdate` | internal/expr/builder.go:414-423 | one section per action with clauses, in any order of the map of actions |
| `ExprBuilder.Builder.Build` | internal/expr/builder.go:386-442 | key, filter and condition texts mean the stored conditions, and the update text is clauses that do the stored effects, under the emitted bindings |
| `ExprBuilder.Builder.Clone` | internal/expr/builder.go:451-489 | a new object with the same contents, so later additions to either leave the other as it was |
| `ExprBuilder.JoinWith` | internal/expr/builder.go:398-407 | the join loop prints the flat run |
| `BuilderRuns.Run` | internal/expr/builder.go:185-442 | for every run of Add calls of any length, with filter groups that fit: the three condition texts mean the accepted conditions and groups of the run, joined by the operators of those very calls, the update text does what the accepted update calls ask for, and the service takes it if and only if it is something and reaches no place twice |
| `BuilderRuns.SpokenIsClear` | internal/expr/builder.go:650-672 | names from a vocabulary that spells each reserved word one way never respell a bound one |
| `BuilderRuns.Perform` | internal/expr/builder.go:185-381 | one call of any kind, a fitting group included, succeeds exactly when it is accepted, adds what it says or does to what the builder holds, and keeps every stored text sound |
| `UpdateReparse.SectionsRecovered` | internal/encryption/update_expression.go:176-204 | printing sections in any order and splitting again finds each action's own clauses |
| `UpdateReparse.ClausesRecovered` | internal/encryption/update_expression.go:206-239 | splitting at top-level commas recovers the clauses, commas inside list_append and if_not_exists notwithstanding |
| `UpdateReparse.AssignmentRecovered` | internal/encryption/update_expression.go:241-247 | splitting at the equals sign recovers target and value of every SET clause |
| `UpdateReparse.BaseRecovered` | internal/encryption/update_expression.go:249-261 | the base placeholder and whether something below it is assigned are recovered from every target |
| `UpdateReparse.DefaultRecovered` | internal/encryption/update_expression.go:263-280 | the default of every if_not_exists call is recovered |
| `UpdateReparse.OtherRhs` | internal/encryption/update_expression.go:171-174 | no other value is taken for an if_not_exists call, and only plain values look like placeholders |
| `UpdateEncryption.SplitTopLevelCommaSeparated` | internal/encryption/update_expression.go:206-239 | the depth-counting loop computes the top-level parts |
| `UpdateEncryption.SplitUpdateExpressionSections` | internal/encryption/update_expression.go:176-204 | the token loop computes the section map |
| `UpdateEncryption.EncryptUpdateExpressionValues` | internal/encryption/update_expression.go:35-59 | the in-place pass over the value map is the specified pass over text, failures included |
| `UpdateEncryption.PassRefines` | internal/encryption/update_expression.go:35-156 | on every printed update the pass over text is the pass over its SET clauses followed by the ADD and DELETE check |
| `UpdateEncryption.PassSealsExactly` | internal/encryption/update_expression.go:84-169 | on success each value assigned to an encrypted attribute has been encrypted once, under its attribute, and every other value is untouched |
| `UpdateEncryption.PassSucceeds` | internal/encryption/update_expression.go:84-169 | with a service that does not fail, the pass fails exactly on a refused clause or an unbound placeholder |
| `UpdateEncryption.RejectionRecovered` | internal/encryption/update_expression.go:127-156 | a printed ADD or DELETE section is rejected exactly when some clause has an encrypted attribute as its operand |
| `UpdateClauses.ClauseJoins` | internal/expr/builder.go:280-365 | each added clause keeps the stored texts printed clauses and SET values distinct |
| `UpdateClauses.PrintedUpdate` | internal/expr/builder.go:414-423 | whatever order the actions are visited in, the text is a well-formed update with exactly the stored clauses |
| `UpdateClauses.UpdateKept` | internal/expr/builder.go:414-423 | an update text does the same under any bindings that extend those it was made under |
| `UpdateGrammar.UpdateRead` | internal/expr/builder.go:414-423 | a parser for the service's update grammar over the characters of the text reads every printed update back: sections, targets with their list elements, values, function arguments in order |
| `UpdateReading.PrintedRead` | internal/expr/builder.go:414-423 | whatever order the sections are printed in, the parser finds each action's clauses as they were collected |
| `UpdateReading.DoesAsRead` | internal/expr/builder.go:414-423 | what an update text is said to do is what the clauses do that the parser finds in it |
| `UpdateReading.DoesOnce` | internal/expr/builder.go:414-423 | under given bindings an update text does one thing, up to the order of the actions, so that what Build's text is said to do is no choice of reading |
| `UpdateAction.LegalUpdateExactly` | internal/expr/builder.go:414-423 | the service takes a printed update text if and only if it does something and no two of its effects reach the same place or one inside the other, whichever effects the text is found to have |
| `UpdateAction.PerformedIs` | internal/expr/builder.go:414-423 | what the service does to an item on an update text is what any effects found in the text do, section by section |
| `UpdateSealing.AcceptedExactly` | internal/encryption/update_expression.go:35-156 | with a service that does not fail, the pass accepts a printed update exactly when every assignment to an encrypted attribute is to the whole of it by a value or if_not_exists, and no ADD or DELETE is on one as a whole |
| `UpdateSealing.SealedExactly` | internal/encryption/update_expression.go:35-169 | when the pass accepts, every assignment to an encrypted attribute is sent with its value encrypted once, under that attribute, and every other clause does what it did |
| `SealedRuns.RunSealed` | internal/encryption/update_expression.go:35-169 | end to end, from Add calls to sent values: the pass lets a run's update through exactly when every accepted call is permitted, and then exactly the values assigned to encrypted attributes are sent encrypted, each under its attribute's name |
| `SealedRuns.LeftAloneExactly` | internal/encryption/update_expression.go:127-156 | ADD, DELETE and REMOVE of an accepted run leave every encrypted attribute alone if and only if no call removes one or part of one and no ADD or DELETE names a path inside one |
| `SealedRuns.AllowedCalls` | internal/encryption/update_expression.go:84-156 | that every effect of a run is allowed is a condition on the fields and functions of its accepted calls |
| `BuilderCases.NestedAdd` | internal/encryption/update_expression.go:139-151 | failing input: ADD on any path inside an encrypted attribute passes, and the value is sent as it is |
| `IndexSelection.AnalyzeConditions` | pkg/index/selector.go:98-134 | the partition key is the first equality's attribute; the sort key is looked for behind it and only then in front |
| `IndexSelection.SelectOptimal` | pkg/index/selector.go:29-60 | none exactly when no index has that partition key, otherwise the first index of the best score |
| `IndexSelection.BestAnswersSort` | pkg/index/selector.go:63-95 | whenever some index can answer the sort condition as well, the chosen one does |
| `IndexSelection.BestExactly` | pkg/index/selector.go:63-95 | for any indexes, the one of the best score is the first of those that no other outranks: one that answers the sort condition outranks one that does not, then a GSI another kind, then one that projects all attributes one that does not |
| `QueryCompile.PartitionConditionsForKeys` | pkg/query/query.go:1452-1484 | the key condition gets exactly the conditions on key attributes with an operator allowed there |
| `QueryCompile.SplitConditionsByKey` | pkg/query/query.go:1783-1799 | the key condition gets exactly the conditions on key attributes, whatever their operator |
| `QueryCompile.KeyMatched` | pkg/query/query.go:1741-1781 | a condition under any of an attribute's names is on an index key if and only if that key is the same attribute |
| `QueryCompile.TableKeyMatched` | pkg/query/query.go:1741-1752 | the same for the table's own keys, whether the table is meant by no index or by the one without a name |
| `QueryCompile.LegalExactly` | pkg/query/query.go:1438-1450 | the emitted key condition is one the service accepts for given keys if and only if exactly one condition put into it is an equality on the partition key and at most one more is put in, bounding the sort key |
| `QueryCompile.FilterExactly` | pkg/query/query.go:1438-1450 | the emitted filter is one the service accepts in a query over given keys if and only if neither a condition left out of the key condition nor a filter of the query's own reaches a key attribute |
| `KeyConditions.LegalEmitted` | pkg/query/query.go:1452-1484 | a printed run of conditions is a legal key condition exactly when the run itself is one |
| `KeyLegality.BestLegal` | pkg/query/query.go:1783-1799 | with a chosen index, legal if and only if besides the first equality at most one condition is on a key attribute, and it bounds the sort key by an allowed operator |
| `KeyLegality.ExplicitLegal` | pkg/query/query.go:1452-1484 | with an index given, no operator makes the key condition illegal: legal if and only if one condition put into it is on the partition key and at most one more on the sort key, as the index has them |
| `KeyLegality.ExplicitAccepted` | pkg/query/query.go:1452-1484 | with an index given, the service accepts key condition and filter if and only if, besides, no condition left out of the key condition and no filter of the query's own reaches a key attribute |
| `KeyLegality.ExplicitSpelling` | pkg/query/query.go:1452-1484 | with an index given, a condition on a key goes into the key condition if and only if it is spelt `=` on the partition key or as the service spells it on the sort key; a comparator in words stays in the filter |
| `KeyLegality.SelectorSpelling` | pkg/index/selector.go:136-157 | the selector, which folds the words, takes for an operator on the sort key exactly those the service allows there |
| `KeyLegality.InequalityKey` | pkg/query/query.go:1783-1799 | failing query: `id = v` and `age <> w` without an index compiles to a Query whose key condition is refused |
| `KeyLegality.InequalityFilter` | pkg/query/query.go:1452-1484 | failing query: `id = v` and `age <> w` with the index given compiles to a legal key condition and a filter on its sort key, which is refused |
| `KeyLegality.SpellingFilter` | pkg/query/query.go:1452-1484 | failing query: with the index given, any condition on its sort key whose operator is not spelt as the service spells it (`LT` for `<`) goes into the filter, which is refused |
| `KeyLegality.RangeKey` | pkg/query/query.go:1452-1484 | failing query: two comparisons on the sort key of a given index both go into the key condition |
| `KeyLegality.BorrowedKey` | pkg/query/query.go:1764-1769 | failing query: on an index without a sort key, a comparison on the table's sort key goes into the key condition |
| `QueryCompile.SelectBestIndex` | pkg/query/query.go:1315-1359 | finds a candidate whose partition key is the first equality's attribute exactly when there is one, and then the preferred one |
| `QueryCompile.TablePreferred` | pkg/query/query.go:1315-1359 | where the conditions fix the table's partition key, the table itself is chosen if and only if no index on that attribute outranks it |
| `QueryCompile.BestFixesPartition` | pkg/query/query.go:1401-1417 | the key condition of a chosen index fixes that index's partition key by an equality |
| `QueryCompile.ChosenHold` | pkg/query/query.go:1712-1739 | however conditions are sorted, the two parts together say what all of them say |
| `QueryCompile.DividedHolds` | pkg/query/query.go:1438-1450 | key condition and filter together hold exactly when every Where condition and the query's own filters do |
| `QueryCompile.Query.Where` | pkg/query/query.go:431-442 | appends the condition, or refuses one on an encrypted field |
| `QueryCompile.Query.CompileWithExplicitIndex` | pkg/query/query.go:1387-1399 | a Query exactly when a key condition is on the partition key attribute, otherwise a Scan with every condition in the filter |
| `QueryCompile.IndexFound` | pkg/query/query.go:1419-1427 | the index given by name is the first one of that name, found exactly when there is one |
| `QueryCompile.Query.CompileWithBestIndex` | pkg/query/query.go:1401-1417 | a Query on the preferred of the serving indexes exactly when there is one, with an equality on that index's partition key in the key condition; otherwise a Scan with every condition in the filter |
| `QueryCompile.Query.Compile` | pkg/query/query.go:1362-1378 | leaves the query as it was; when the query's builder is sound over a vocabulary, which filter groups keep it if they fit, the emitted texts select exactly the items on which every Where condition and the query's filters hold, unless an OR filter precedes a Where condition in the filter, and key condition and filter are legal exactly under the conditions of LegalExactly and FilterExactly |
| `FilterOrder.WhereBehindFilterExact` | pkg/query/query.go:1441-1448 | conditions put behind a flat filter are conjoined with it, for every outcome, if and only if the filter has no OR or nothing was put behind it |
| `FilterOrder.DisagreesWithOr` | pkg/query/query.go:2232-2246 | failing outcomes for every filter with an OR: the filter holds although the Where conditions behind it do not |
| `FilterOrder.BindsToLastRun` | pkg/query/query.go:1441-1448 | conditions behind a filter bind to its last AND-run alone |
| `UpdateExecute.UpdateBuilder.SentCondition` | pkg/query/update_builder.go:320-413 | fails exactly on a refused guard or write condition or a raw condition that cannot be merged with the placeholders bound by then; the sent condition holds exactly when the update's guards, the write conditions and the raw conditions do; the sent update text does what the builder's clauses do, under the sent bindings |
| `UpdateExecute.UpdateBuilder.OwnCondition` | pkg/query/update_builder.go:443-449 | guards are added with their stored operators, or with AND throughout, and read back so |
| `UpdateExecute.UpdateBuilder.QueryConditions` | pkg/query/query.go:192-226 | write conditions joined by AND, then the raw conditions; fails exactly on a refused condition or an unmergeable raw one |
| `UpdateExecute.WriteExactly` | pkg/query/query.go:228-243 | a write condition is taken if and only if its field is given and is no name of an encrypted attribute, and the builder accepts it |
| `UpdateExecute.ExecuteAgrees` | pkg/query/update_builder.go:330-341 | folding guards with AND and with their stored operators agrees for every outcome if and only if no guard after the first was added with OR |
| `UpdateExecute.SentAgree` | pkg/query/update_builder.go:330-341 | the conditions Execute and ExecuteWithResult send hold on the same items if and only if no guard after the first was added with OR |
| `UpdateExecute.OrIgnored` | pkg/query/update_builder.go:330-341 | failing input: with guards `a = v` or `b = w`, run through both methods, the sent conditions differ |
| `UpdateExecute.PopulateKeyValues` | pkg/query/update_builder.go:254-316 | explicitly given values are kept under stored names and have to cover the key; without any, succeeds exactly when all key conditions are equalities and cover the key, the last condition on an attribute wins |
| `UpdateExecute.ResolversAgree` | pkg/query/query.go:81-169 | the four places that turn a field into a stored name agree on a field if and only if it is unknown or its attribute has a stored name |
| `OptimisticLocking.NoLostUpdates` | pkg/query/query.go:813-858 | in every interleaving of reads, stale ones included, and updates whose sent texts the service evaluates and performs on the stored item: each success was based on the preceding committed state, the version counts the successes, and the item is their sequential result |
| `OptimisticLocking.OneWinner` | pkg/query/query.go:944-951 | of all updates based on one version at most one succeeds |
| `OptimisticLocking.NextKeeps` | pkg/query/query.go:937-955 | every step keeps the invariant |
| `OptimisticLocking.AcceptedExactly` | pkg/query/query.go:937-955 | the service accepts what is sent exactly when the update text reaches no place twice, the stored version is the guard's and everything else sent along holds |
| `OptimisticLocking.WrittenExactly` | pkg/query/query.go:862-908 | performing the clauses of a text that assigns attributes and ADDs 1 to the version leaves the stored item with these attributes overlaid and the version one higher |
| `OptimisticLocking.NoOverlapExactly` | pkg/query/query.go:862-908 | the service takes the update text of an Update exactly when no attribute is assigned twice |
| `OptimisticLocking.GuardHolds` | pkg/query/query.go:944-951 | the version guard is true of exactly the items with its version |
| `OptimisticLocking.Update` | pkg/query/query.go:813-908 | the version guard is the first condition, what is sent holds exactly when the guard, the other conditions and the raw conditions hold; the update text assigns the fields and ADDs 1 to the version, and so it is a sending the protocol's clients may make; it fails exactly when a call is refused or a raw condition cannot be merged |
| `OptimisticLocking.GuardIsNecessary` | pkg/query/query.go:944-948 | nothing sent along can make up for a failed version guard |
| `BatchGet.ExecuteBatchGet` | pkg/query/executor.go:605-669 | on success the response is exactly the items of the requested keys, whatever was left unprocessed; at most one call plus the allowed retries; with no failing call and at least `rate` keys served by each, it succeeds when the calls allowed times `rate` reach the number of keys |
| `BatchGet.BuildBatchGetChunks` | pkg/query/batch_get.go:334-369 | chunks concatenate to the request, hold between one and the chunk size, and all but the last are full |
| `BatchGet.FindMatchingItem` | pkg/query/batch_get.go:427-437 | the first unused item that carries the key |
| `BatchGet.AlignKey` | pkg/query/batch_get.go:402-425 | a key's item goes to the key's place and nothing else changes |
| `BatchGet.Step` | pkg/query/batch_get.go:106-138 | every step of every worker keeps the alignment invariant |
| `BatchGet.RunChunksParallel` | pkg/query/batch_get.go:371-400 | for every interleaving of the workers, once all have finished every key's place holds its item or nothing; they all finish on a long enough schedule when the calls allowed serve each chunk |
| `BatchGet.FlattenBatchGetResults` | pkg/query/batch_get.go:140-148 | the flattened result is the present items in request order |
| `BatchGet.BatchGet` | pkg/query/batch_get.go:106-148 | end to end: a successful call returns, for each requested key in order, the table's item if there is one; it succeeds when no call fails, the calls allowed serve a chunk of the size used, and each worker gets its turns |
| `BatchWrite.ExecuteBatchWriteWithRetries` | pkg/query/batch_operations.go:607-672 | at most five calls; success means the batch was applied as if in order; at all times applied and remaining requests make up the batch; with no failing call and at least `rate` requests processed by each, it succeeds when five times `rate` reaches the size of the batch |
| `BatchWrite.SplitWriteRequests` | pkg/query/batch_operations.go:781-796 | batches concatenate to the request list, hold at most 25, and all but the last are full |
| `BatchWrite.BatchWriteWithOptions` | pkg/query/batch_operations.go:680-715 | success means the table is as if all puts and then all deletes had been applied in turn; it succeeds when five calls process a batch of the size used |
| `BatchWrite.WrittenAt` | pkg/query/batch_operations.go:717-731 | what that leaves under each key when no key is written twice |
| `TableWrites.AppliedInAnyOrder` | pkg/query/batch_operations.go:607-672 | with one request per key the order of application does not matter |
| `TableCopy.BatchWriteWithRetries` | pkg/schema/automigrate.go:525-567 | what is handed back and what was applied make up the batch; with no failing call, each of the calls allowed has processed its part |
| `TableCopy.PutWriteRequestsIndividually` | pkg/schema/automigrate.go:593-614 | the leftovers are put one by one in order |
| `TableCopy.FallbackCompletes` | pkg/schema/automigrate.go:487-523 | retries and fallback together apply every request of the batch exactly once |
| `TableCopy.WriteRequestsBatched` | pkg/schema/automigrate.go:487-523 | success means all requests were applied in order, for every batch size and retry budget |
| `TableCopy.BuildPutWriteRequests` | pkg/schema/automigrate.go:461-485 | succeeds exactly when the transform succeeds on every item, and then puts the transformed items in order |
| `TableCopy.CopyData` | pkg/schema/automigrate.go:307-347 | for every page split, leftover and fallback, success means the target is its old contents with the transform of every source item put in scan order |
| `TableCopy.CopiedOverlay` | pkg/schema/automigrate.go:307-366 | with a transform injective on keys, each transformed item is found under its key and every other key is as before |
| `PagedReads.CollectPaginatedItems` | query_executor.go:1263-1287 | trimming returns exactly the first min(L, n) matches; without trimming a prefix of at least min(L, n) and at most 2L-1 |
| `PagedReads.ExecutePagedItems` | pkg/query/executor.go:178-197 | a prefix of the matches of at least min(L, n) and at most 2L-1, all of them without a limit |
| `PagedReads.First` | pkg/query/query.go:567-605 | with one item read per page, a match is found exactly when there is one, and it is the first |
| `FirstFastPath.ExtractKeyValues` | pkg/query/query.go:1999-2031 | applies exactly when every condition is an equality on a key attribute; the last value for each attribute wins |
| `FirstFastPath.FastConds` | pkg/query/query.go:1999-2031 | on a table keyed by Go names, a condition is one for the fast path if and only if it is an equality, spelt `=`, on an attribute of the table's key, under any of that attribute's names |
| `FirstFastPath.KeyValues` | pkg/query/query.go:1925-1980 | the key fetched holds, for each attribute of the table's key and no other, the value of the last condition on it, and the model's only where no condition is on it |
| `FirstFastPath.FastPathExact` | pkg/query/query.go:1925-1980 | the GetItem path returns what the compiled Query or Scan returns, on every table, if and only if the query pins the key: accepted conditions on stored names that agree with the key and name all of it, and no chosen index, or one that covers the key, returns whole items and gets each key attribute once |
| `QueryPath.CompileFirst` | pkg/query/query.go:1362-1378 | for a query of equalities, running the texts Compile emits finds what the conditions say, and is refused exactly when the key condition or the filter is not legal |
| `FirstFastPath.TwiceDiffers` | pkg/query/query.go:1999-2031 | failing input: `id = v` given twice is answered by GetItem and refused as a Query |
| `FirstFastPath.SpellingDiffers` | pkg/query/query.go:2009-2016 | failing input: `ID = v` on a table keyed by `id` gets the item, where the Scan compares another attribute |
| `FirstFastPath.ModelDiffers` | pkg/query/query.go:1949-1950 | failing input: without conditions the model's key is fetched, where the Scan finds whatever comes first |
| `FirstFastPath.First` | pkg/query/query.go:567-605 | whichever path is taken, for plain equalities the result is the compiled query's first match, given on the fast path that the query pins the key; it fails only when a value, a condition, the key condition, the filter or the service does |
| `CursorWalk.Query.SetCursor` | pkg/query/pagination.go:77-90 | an empty cursor changes nothing, an undecodable one is refused |
| `CursorWalk.Query.AllPaginated` | pkg/query/pagination.go:12-74 | one page of at most the limit, which is 100 when none was given, and a cursor that carries the query's index and direction and resumes behind the page; HasMore is false only at the end |
| `CursorWalk.Walk` | pkg/query/pagination.go:12-98 | following NextCursor visits exactly the unpaginated result, in order, each item once |
| `CursorCodec.RoundTripExact` | pkg/query/cursor.go:82-311 | the cursor codec restores a value, at any depth, if and only if every NULL says true and no string or number set is nil |
| `CursorCodec.CursorRoundTrip` | pkg/query/cursor.go:21-80 | as trees, index and direction come back, and decode(encode(key)) is the key if and only if every attribute of it is lossless |
| `CursorText.TextRoundTrip` | pkg/query/cursor.go:21-80 | as the string the caller holds: it always decodes, to the index and direction it was made for, and to the key if and only if every attribute is lossless |
| `Base64.UrlRoundTrip` | pkg/query/cursor.go:47-56 | the URL alphabet is decoded to what was encoded (section 5 of RFC 4648) |
| `Base64.RoundTrip` | pkg/query/cursor.go:86-88 | decoding undoes encoding for every byte string (section 4 of RFC 4648) |
| `Base64.Vectors` | pkg/query/cursor.go:95-95 | the test vectors of section 10 of RFC 4648 |
| `ValueEncryption.ValueRoundTrip` | internal/encryption/attribute_value_json.go:10-173 | decoding what was encoded gives the canonical value at any depth; dropped empty fields come back |
| `ValueEncryption.CanonicalExact` | internal/encryption/attribute_value_json.go:52-58 | a value is its own canonical form exactly when every NULL says true and no string or number set is empty but not nil |
| `ValueEncryption.EnvelopeBack` | internal/encryption/service.go:180-218 | an envelope is read back as written, and refused when its wrapped key or nonce is empty |
| `ValueEncryption.SealedForAttribute` | internal/encryption/service.go:65-152 | a value sealed for an attribute opens for that attribute, canonical, and for no other |
| `ValueEncryption.EncryptItem` | query_executor.go:138-169 | succeeds exactly when there is nothing to encrypt, or encryption is configured and no needed encryption fails; then each encrypted attribute is sealed once, in place, and every other one is as it was |
| `ValueEncryption.DecryptItem` | query_executor.go:105-136 | succeeds exactly when every encrypted attribute opens, and touches no other |
| `ValueEncryption.StoreAndLoad` | query_executor.go:105-169 | writing succeeds exactly when no needed encryption fails, and reading back then always succeeds, restores every encrypted attribute and touches no other |
| `TokenBucket.SimpleLimiter.Allow` | pkg/protection/simple_rate_limiter.go:30-55 | one call does what the bucket's step does, whose refill by whole intervals up to the cap is `TokenBucket.BurstExactly` |
| `TokenBucket.BurstExactly` | pkg/protection/simple_rate_limiter.go:30-55 | of calls made together k whole intervals after the last refill exactly min(n, min(max, tokens + k)) are admitted, and the tokens left are the rest |
| `TokenBucket.BurstAdmitted` | pkg/protection/simple_rate_limiter.go:30-55 | after a pause of n intervals n calls made together are all admitted, for n up to the cap |
| `TokenBucket.RefusedExactly` | pkg/protection/simple_rate_limiter.go:36-51 | a call is refused if and only if the bucket can hold no token, or it is empty and no whole interval has passed |
| `TokenBucket.AdmittedSinceStart` | pkg/protection/simple_rate_limiter.go:18-55 | admissions up to t are at most burst + floor((t - start) / r) |
| `TokenBucket.AdmittedInWindow` | pkg/protection/simple_rate_limiter.go:30-55 | in any window [s, t] at most burst + floor((t - s) / r) + 1 |
| `TokenBucket.WindowBoundIsTight` | pkg/protection/simple_rate_limiter.go:30-55 | the one more does occur, for every interval of at least two ticks |
| `TokenBucket.AdmitsAfterInterval` | pkg/protection/simple_rate_limiter.go:36-51 | a bucket that can hold a token admits every call made an interval or more after its last refill |
| `TokenBucket.SteadyCallsAdmitted` | pkg/protection/simple_rate_limiter.go:30-55 | calls spaced an interval apart are all admitted |
| `BatchLimiter.LimiterSafe` | pkg/protection/resource_limiter.go:215-268 | in every interleaving 0 <= counter <= permits <= cap and peak <= cap, and with no compare-and-swap pending the maximum is the peak |
| `BatchLimiter.PermitExactly` | pkg/protection/resource_limiter.go:215-247 | after every run, a call that passes the size and rate checks and whose context is not done gets a permit if and only if fewer callers than the capacity hold one; every other call is counted as rejected and changes nothing else |
| `BatchLimiter.EveryCallCounted` | pkg/protection/resource_limiter.go:215-262 | in every run each call is counted once, in the total or as rejected, or is about to be |
| `BatchLimiter.HoldsAlone` | pkg/protection/resource_limiter.go:235-262 | a caller that finds room and is not disturbed holds its batch after five steps |
| `BatchLimiter.ReleasesAlone` | pkg/protection/resource_limiter.go:264-268 | two steps later its permit is free again |
| `BatchLimiter.BoundReached` | pkg/protection/resource_limiter.go:235-262 | for every capacity there is a run in which that many callers hold batches at once, and the maximum records it |
| `BatchLimiter.RunKeeps` | pkg/protection/resource_limiter.go:215-268 | the counting invariants hold after every run |
| `BatchLimiter.PeakIsHighest` | pkg/protection/resource_limiter.go:249-260 | the peak is the highest value the counter has had in the run |
| `SchemaEquivalence.ValidateModelAttributes` | pkg/dms/dms.go:517-541 | accepts exactly valid attributes with distinct names |
| `SchemaEquivalence.ValidKinds` | pkg/dms/dms.go:517-541 | the checks of one attribute come down to a name, one kind for each flag, and not both required and optional; the check for both flags never decides |
| `SchemaEquivalence.NormalizeForCompare` | pkg/dms/dms.go:291-339 | a normal form: everything kept, every list sorted, by any sort |
| `SchemaEquivalence.SameConvention` | pkg/dms/dms.go:291-299 | two models share a naming convention exactly when they name the same one, or one names camelCase and the other none |
| `SchemaEquivalence.NormalFormsCanonical` | pkg/dms/dms.go:291-339 | normal forms are equal exactly when names, keys and the sets of attributes and indexes agree |
| `SchemaEquivalence.AssertModelsEquivalent` | pkg/dms/dms.go:122-134 | succeeds exactly when the models are equivalent, whatever the listing order |
| `Naming.DefaultAttrName` | pkg/naming/naming.go:46-75 | lowers the leading run of capitals up to the start of the next word |
| `Naming.CamelUnique` | pkg/naming/naming.go:46-75 | the description of the converted name fits one name only |
| `Naming.CamelPattern` | pkg/naming/naming.go:124-148 | the names the conversion leaves as they are are PK, SK and the valid ones whose second letter belongs to no leading run of capitals |
| `Naming.CamelWords` | pkg/naming/naming.go:46-75 | of a name made of words and acronyms the first is lowered and the rest kept, if and only if the first is not a single small letter in front of an acronym, which is lowered as well |
| `Naming.ToSnakeCase` | pkg/naming/naming.go:79-108 | the loop builds the pieces of the snake_case name |
| `Naming.SnakeWords` | pkg/naming/naming.go:79-108 | of a name made of words and acronyms the snake_case name is its words in lower case with one underscore between each two |
| `Naming.SnakePattern` | pkg/naming/naming.go:124-148 | a name is valid as snake_case if and only if it is non-empty parts of small letters and digits with one underscore between each two, the first starting with a letter |
| `Naming.ConvertedIsValidAndFixed` | pkg/naming/naming.go:111-148 | for every ASCII alphanumeric field name starting with a letter, the converted name is valid for its convention and converting it again gives it back |

## Left out

- Validation patterns, Go value conversion by reflection and custom converters: `Policy` and `Convert` stand for their
  answers; a value is one the converter turns into an attribute value, a slice of values, or one it rejects.
- Strings: ASCII only; Unicode case mapping and UTF-8 are not modelled, and JSON strings are taken as valid.
- Projection expressions, `AddAdvancedFunction` and the options a compiled query carries along (limit, order,
  consistent read, segments): they do not take part in the properties above.
- ExprBuilder.Builder.AddKeyCondition: that a field that is not clear spoils a binding is stated once, for the naming step
  the conditions share (`Placeholders.RespellingExact`); a condition on a rejected field is refused.
- ExprBuilder.Builder.AddGroupFilter: the group's meaning is a ghost argument; how a callback builds the group is not modelled.
- ExprBuilder.Builder.AddUpdateFunction: an argument counts as the field's name when it is a string attribute value equal to
  it, as Go's comparison of interface values does for strings.
- QueryCompile.Query.Compile: nothing is promised for a query with a filter group that does not fit, or whose filters do not
  keep to a vocabulary; what then happens to a stored condition is `LaterCalls.CallKeepsExactly`. That a Query on an index
  returns only items carrying the index's keys is left to the service, and so is what else it holds against a filter.
- FirstFastPath.FastPathExact: keys are strings, numbers or bytes, as the service requires; number keys are compared as
  written, and an index lags behind its table in ways that are not modelled.
- CursorWalk.Query.AllPaginated: the counts of the page are not modelled.
- BatchGet.BatchGet: number keys are compared as written, and responses carry the key attributes (no projection without
  them); OnChunkError, which may swallow a chunk's error, is not modelled.
- BatchWrite.BatchWriteWithOptions: models without encrypted fields and without an error handler, which may swallow errors;
  encrypting executors rewrite put items on every attempt.
- OptimisticLocking.Update: the fields are given by attribute and value, the time stamp among them, so which fields of the
  Go value are taken is not modelled; effects on places inside an attribute, DELETE, list_append of what is no list and ADD of
  anything but a whole number to an attribute are left to the service.
- OptimisticLocking.NoLostUpdates: unguarded writers (CreateOrUpdate, Delete without a version, delete and recreate) are no
  steps of the model; versions are unbounded integers.
- CursorText.TextRoundTrip: the bytes of a JSON text are those of any codec that reads back what it writes.
- CursorCodec.RoundTripExact: nil and empty byte slices are one value in the model.
- ValueEncryption.ValueRoundTrip: Go's case-insensitive matching of JSON field names and type errors in fields the tag does
  not select are not modelled; they concern texts the encoder never writes.
- ValueEncryption.SealedForAttribute: the AEAD and the key service are ideal functions; no claim about key material.
- TokenBucket.SimpleLimiter.Allow: the clock is a parameter that does not go back, the refill interval is positive, and
  integer overflow of token counts is not modelled.
- BatchLimiter.LimiterSafe: every ReleaseBatch matches an AcquireBatch; size and rate checks and a context that is done are one
  yes-or-no input, and that each call comes to its turn is a choice of the run.
- SchemaEquivalence.AssertModelsEquivalent: parsing of YAML and JSON documents, formats and encryption settings other than
  their presence are not modelled.
- Table copies between scan and write see no concurrent writers; `copyTableData`, which repeats the loop of `copyData`
  without a transform, would only add easy members.
- The transaction builder's sticky error and retry schedule, ScanAllSegments, aggregates, optimizer hints and memory
  monitoring: heuristic or shallow.
- AWS clients, sessions, struct tags, the model registry, contexts, real time and backoff durations.
