# yii-conditions: the condition compiler, modelled in Dafny

yii-conditions lets a Yii2 `ActiveQuery` class declare named conditions as
`condition<Name>()` methods and then call them under "virtual" names. A
call such as `$query->orNotActiveIfCondition($flag)` or
`$query->withAuthorNameCondition('x')` is taken apart by a regular
expression into these parts:

- a combinator (`and`/`or`);
- a negation;
- a base name;
- an optional evaluator (`If`/`BasedOn`) that may stop the call;
- an optional `Condition` suffix that returns the condition instead of
  merging it.

A base beginning with `with` names a relation of the model. It is resolved
against the model's getters (`getAuthor`, `getAuthorName`). The remaining
words are applied as conditions of the relation's query. The result is
turned into a correlated sub-query (`IN (SELECT …)`).

A raw condition (a Yii condition array) is expanded element by element. A
string that names a condition is replaced by that condition's definition,
read through a token-guarded accessor. A string that names a `with…`
relation runs a whole relation call in its place.

This project models that compiler: `src/ConditionsHandler.php` and the
entry points of the `Conditions` trait in `src/Conditions.php`.

The modules, in dependency order:

- `Php` (php.dfy): the PHP string functions the code uses (`lcfirst`,
  `ucfirst`, `strtolower`, `explode`, `preg_split('/\D+/')`, `(string)` of a
  number).
- `Values` (values.dfy): PHP values, Yii query values, and the `World`. The
  `World` is everything the handler reads from the rest of the application:
  tables and primary keys, model getters, query methods, condition bodies,
  and the token each query class holds.
- `Grammar` and `GrammarProofs` (grammar.dfy): the name pattern at
  `ConditionsHandler.php:25`, matched the way PCRE does. This includes the
  lazy `\w+?` and `$` accepting a final newline. Soundness and a round trip
  are proved.
- `Significance` (significance.dfy): `significance()`, with PHP's `trim`
  and `is_numeric`.
- `Conditions` (conditions.dfy): `existsCondition`, `getRawCondition`, the
  class token (`TokenStore`) and `conditionElems`.
- `RelationWords` (words.dfy): splitting a `with…` base into camel-case
  words, finding the relation, and segmenting the remaining words into
  conditions.
- `Relations` (relations.dfy): `simpleRelation`, `compoundRelation`, and
  the correlated condition they produce.
- `Rendering` (render.dfy): the evaluators and `renderCondition`.
- `Expander` (expander.dfy): the mutual recursion of `handleConditionCall`,
  `renderDirectCondition`, `renderRelatedCondition`,
  `applyConditionsToRelation`, `processCondition` and
  `processConditionElem`, as functions bounded by a `Fuel` argument.
  `ExpanderProofs` (expander_proofs.dfy) proves facts about them:
  - extra fuel changes nothing except an `OutOfFuel` result;
  - `processCondition` is idempotent;
  - elements that name nothing are kept;
  - the `name:arg1,arg2` syntax round-trips.
- `Handler` (handler.dfy): the class `ConditionsHandler`. It has the
  source's fields and its methods update them in place. Each method is
  proved equal to the `Expander`/`Rendering` function that specifies it, and
  `applyConditionsToRelation` keeps its loop.
- `ConditionsEntry` (entry.dfy): `__callfromConditions`, `whereCondition`,
  `andWhereCondition` and `orWhereCondition`, with the falsy-result fall
  through to the next `__call` handler.
- `CallProofs` (call_proofs.dfy): end-to-end statements:
  - when a call falls through;
  - that a stopped evaluator keeps the query;
  - which single where-clause a direct, related or raw condition adds;
  - that a wrong token reads no definition.

## Model

| member | source | states |
|---|---|---|
| Php.ExplodeJoin | src/ConditionsHandler.php:388 | joining the pieces of `explode` with the separator gives back the string |
| Php.JoinExplode | src/ConditionsHandler.php:388 | `explode` of pieces joined by a separator none of them contains gives back the pieces |
| Php.SplitNonDigitsPieces | src/Conditions.php:136 | `preg_split('/\D+/')` yields digit-only pieces whose concatenation is exactly the digits of the input |
| Php.SplitNonDigitsImplode | src/Conditions.php:136 | `preg_split('/\D+/')` cuts exactly at the separators: non-empty digit strings joined by any non-empty run of non-digits split back into those strings, so `'12'` stays one id and `'1,2'` gives two |
| Grammar.LazyEndFound | src/ConditionsHandler.php:25 | the lazy `\w+?` ends at the first position, over word characters only, where the `(If\|BasedOn)?(Condition)?$` tail matches |
| Grammar.TailCoreText | src/ConditionsHandler.php:25 | each evaluator/`Condition` suffix is read back as the fields it spells |
| GrammarProofs.ParseCase | src/ConditionsHandler.php:187-198 | a parsed name is one of the pattern's alternatives: a literal prefix fixing combinator and negation, then the base at the position the alternative requires |
| GrammarProofs.ParseSound | src/ConditionsHandler.php:187-198 | every parse gives a base of at least two word characters, starting lower-case, lazily shortest, with the related flag set exactly when it starts with `with`; the name is the prefix, the (upper-cased) base and the suffix, possibly plus one newline |
| GrammarProofs.BuildComplete | src/ConditionsHandler.php:25 | conversely, a name spelled from a well-formed base and suffix is matched at that base with exactly those fields |
| GrammarProofs.ParseSpelled | src/ConditionsHandler.php:187-198 | round trip: spelling any well-formed call with any prefix and parsing it gives the same fields. The only spellings excluded are those the pattern reads another way: a bare name that is `and`, `or` or `not` followed by an upper-case letter and at least one more character, and a base `not…` after a plain `and`/`or` whose `not` is followed by an upper-case letter and at least one more character (`orders`, `notified`, `andNotified`, `andX` and `andNotX` round-trip) |
| GrammarProofs.ShortBareRoundTrip | src/ConditionsHandler.php:25 | `andX` parses as the bare base `andX`: after a prefix, `[A-Z]\w+?` needs a second character |
| GrammarProofs.ShortNegatedRoundTrip | src/ConditionsHandler.php:25 | `andNotX` parses as `and` with the base `notX`, not as a negated call |
| ExpanderProofs.WithConditionParses | src/ConditionsHandler.php:618-621 | a `with<Upper>…` element name with `Condition` appended parses as a related, condition-only, un-negated `and` call |
| Significance.TrimSpec | src/ConditionsHandler.php:212-214 | `trim` removes exactly the leading and trailing whitespace run: the result is a contiguous slice with no trim character at either end |
| Significance.TrimTwice | src/ConditionsHandler.php:212-214 | trimming is idempotent |
| Significance.NonSignificantIff | src/ConditionsHandler.php:210-220 | a value has no significance exactly when it is `null` or a string that trims to empty |
| Significance.NegativeIff | src/ConditionsHandler.php:210-220 | a value is negative exactly when it is `false`, `0`, `[]` or a numeric string whose number is zero |
| Significance.TextAffirmative | src/ConditionsHandler.php:210-220 | a non-blank, non-numeric string is affirmative |
| Significance.SignificancePadded | src/ConditionsHandler.php:210-220 | surrounding whitespace does not change a string's significance |
| Significance.SignificanceDigit | src/ConditionsHandler.php:210-220 | a one-digit string is negative for `0` and affirmative otherwise |
| Significance.SignificanceBlank | src/ConditionsHandler.php:210-220 | a whitespace-only string has no significance |
| Rendering.EvaluatorsShift | src/ConditionsHandler.php:228-265 | both evaluators consume exactly the first argument (none when there is none) |
| Rendering.EvaluateIfIff | src/ConditionsHandler.php:228-237 | `If` proceeds exactly when there is a first argument and it is affirmative; it never changes the negation |
| Rendering.EvaluateBasedOnIff | src/ConditionsHandler.php:248-265 | `BasedOn` stops exactly when the first argument is missing or insignificant, and flips the negation exactly when it is negative |
| Rendering.EvaluateIfExamples | src/ConditionsHandler.php:228-237 | `"0"` stops an `If` call and `"1"` lets it proceed |
| Rendering.EvaluateBasedOnExamples | src/ConditionsHandler.php:248-265 | `"0"` makes a `BasedOn` call proceed negated; a blank string stops it |
| Rendering.RenderConditionOnly | src/ConditionsHandler.php:276-283 | a condition-only render returns the condition, wrapped in `['not', …]` exactly when negated |
| Rendering.NotOfNotSelf | src/ConditionsHandler.php:278-280 | the `['not', c]` wrapper always differs from `c` |
| Rendering.RenderCombines | src/ConditionsHandler.php:276-288 | with `and`/`or`, the render appends exactly one clause of that kind and leaves the rest of the query unchanged |
| Rendering.RenderWithoutCombine | src/ConditionsHandler.php:284-286 | without a combinator, `where()` replaces every earlier clause with the condition |
| Rendering.RenderFailsIff | src/ConditionsHandler.php:284-286 | a merging render fails exactly when `combineWith . 'Where'` is not a string naming `where`, `andWhere` or `orWhere` (case-blind) |
| Rendering.RenderTruthy | src/ConditionsHandler.php:276-288 | a render is truthy unless it is condition-only, un-negated and the condition is falsy |
| Conditions.MethodNameLower | src/Conditions.php:105-108 | the condition method of `name` is `condition` + `name` up to case |
| Conditions.ExistsConditionIff | src/Conditions.php:94-98 | a condition exists exactly when the query class has the method `condition<Name>` (PHP method names ignore case) |
| Conditions.ExistsConditionCaseBlind | src/Conditions.php:94-108 | names that differ only in case exist together |
| Conditions.GetRawCondition | src/Conditions.php:78-86 | with a token other than the class's, the definition is `null`; with the class's token it is the body of the condition method for the arguments |
| Conditions.RawConditionNeedsToken | src/Conditions.php:80-82 | a wrong token reads `null` for every name and argument list |
| Conditions.RawConditionCaseBlind | src/Conditions.php:78-86 | names differing only in case read the same definition |
| Conditions.TokenStore.HandlerToken | src/Conditions.php:27-36 | a truthy stored token is returned and kept; otherwise the generated number, as a string, is stored and returned |
| Conditions.GeneratedTokenFalsy | src/Conditions.php:29-33 | a generated token is falsy, and so regenerated on the next call, exactly when the number drawn is 0 |
| Conditions.ConditionElems | src/Conditions.php:126-140 | the condition is a one-entry array keyed `table.pk` of the query's model, whose value is the list of every argument's elements in order; it fails exactly when an argument cannot be made a string |
| Conditions.ElemsOfStringArgs | src/Conditions.php:126-140 | for string arguments, the listed ids are digit strings whose concatenation is exactly the digits of the arguments |
| Conditions.FlattenNoArrays | src/Conditions.php:135-137 | flattening leaves no array in the list |
| Conditions.FlattenAppend | src/Conditions.php:135-137 | flattening keeps the leaves in order: two arrays side by side flatten to the one flattening followed by the other |
| Conditions.FlattenList | src/Conditions.php:135-137 | a list that is already flat flattens to itself |
| Conditions.ElemsOfArgsFlat | src/Conditions.php:135-137 | whatever the arguments, the list of elements holds no array |
| Conditions.ElemsOfDigitStrings | src/Conditions.php:135-137 | digit strings passed as separate arguments are listed one each, in order |
| Conditions.ConditionElemsOfText | src/Conditions.php:126-140 | `conditionElems('3, 4')`: ids joined by any non-digit separator are listed exactly, under `table.pk` |
| Conditions.ConditionElemsOfArray | src/Conditions.php:126-140 | an array argument lists its flattened leaves, in order, under `table.pk` |
| Conditions.ElemsExists | src/Conditions.php:126-140 | where the trait's `conditionElems` is installed, `elems` is an existing condition whose definition for digit strings is the primary-key condition on them |
| RelationWords.DropFalsy | src/ConditionsHandler.php:388 | `array_filter` keeps no `""` or `"0"` piece |
| RelationWords.WordsOfShape | src/ConditionsHandler.php:387-388 | the words of a `with…` base are non-empty camel-case words that spell the rest of the base (less a leading `0`, which `array_filter` drops) |
| RelationWords.FirstRelationShortest | src/ConditionsHandler.php:381-410 | no relation is found exactly when no word prefix names a getter; otherwise the shortest such prefix is the relation and the remaining words are the conditions |
| RelationWords.FirstRelationAuthorName | src/ConditionsHandler.php:381-410 | `AuthorName` splits as `author` + `[Name]` when `getAuthor` exists, and as `authorName` when only `getAuthorName` does |
| RelationWords.FirstRelationRest | src/ConditionsHandler.php:381-410 | the words left over for conditions are camel-case words |
| RelationWords.RelationNameTruthy | src/ConditionsHandler.php:381-410 | a found relation name is truthy, so the search stops at it |
| RelationWords.SplitRelationFromConditionsWords | src/ConditionsHandler.php:381-410 | the loop finds exactly the shortest getter prefix of the words of the base |
| RelationWords.ParseConditionsFromWords | src/ConditionsHandler.php:422-435 | the loop yields exactly the greedy-shortest segmentation of the words into condition names, or nothing when words are left over |
| RelationWords.SegmentFromSound | src/ConditionsHandler.php:422-435 | every segment is an existing condition and the segments spell the consumed words |
| RelationWords.SegmentFromShortest | src/ConditionsHandler.php:422-435 | with a chain already accumulated, the first name emitted is the shortest run of words that completes the chain to a condition name, and the cut goes on after it with an empty chain |
| RelationWords.SegmentFromNone | src/ConditionsHandler.php:422-435 | when no run of words completes the chain to a condition name, nothing is emitted and the cut fails exactly when the leftover chain is truthy |
| RelationWords.SegmentGreedy | src/ConditionsHandler.php:422-435 | the first condition found is the shortest run of leading words that names one; the rest of the words are cut the same way |
| RelationWords.SegmentNoCondition | src/ConditionsHandler.php:422-435 | when no run of leading words names a condition, nothing is found, and the result is null unless the words spell a falsy string |
| RelationWords.SegmentRoundTrip | src/ConditionsHandler.php:422-435 | a complete segmentation names only existing conditions, and the segments, upper-cased first, concatenate back to the words |
| RelationWords.SegmentSingles | src/ConditionsHandler.php:422-435 | when every single word is a condition, each word becomes its own condition |
| Relations.SimpleRelation | src/ConditionsHandler.php:462-491 | the method builds exactly the simple binding of a relation without a pivot |
| Relations.CompoundRelation | src/ConditionsHandler.php:500-558 | the method builds exactly the pivot binding of a `via`/`viaTable` relation |
| Relations.SimpleBindingShape | src/ConditionsHandler.php:462-491 | a simple relation selects the quoted foreign column, adds the local = foreign equality, and keys the result by the quoted local column; the relation's other parts are kept |
| Relations.SimpleBindingFirstLinkOnly | src/ConditionsHandler.php:462-491 | only the first link pair matters to the binding |
| Relations.CompoundBindingShape | src/ConditionsHandler.php:500-558 | a pivot relation selects the remote foreign column, correlates through the pivot table's local and remote columns, and adds the pivot equality; both queries keep their other parts |
| Relations.BindingNeedsRecord | src/ConditionsHandler.php:462-510 | preparing the relation fails exactly when the relation query has no primary model (PHP calls `tableName()` on `null`) |
| Relations.CorrelationShape | src/ConditionsHandler.php:462-558 | the correlated condition is one `local IN (sub-query)` entry, through the pivot query when there is one |
| Expander.ProcessCondition | src/ConditionsHandler.php:580-592 | an array condition is processed element by element under the same keys |
| ExpanderProofs.ParseTokenRoundTrip | src/ConditionsHandler.php:604-606 | `name:arg1,arg2` is read back as the name and the argument list; a bare name has no arguments |
| ExpanderProofs.ProcessElemIds | src/ConditionsHandler.php:600-611 | `elems:3,4` inside a condition, read with the class's own token, expands to the primary-key condition on exactly the ids `3` and `4` |
| ExpanderProofs.ProcessElemDirect | src/ConditionsHandler.php:609-611 | an element naming an existing condition becomes its definition for the written arguments |
| ExpanderProofs.ProcessIdempotent | src/ConditionsHandler.php:580-592 | processing a processed condition gives it back unchanged |
| ExpanderProofs.ProcessInert | src/ConditionsHandler.php:600-626 | a condition none of whose strings names a condition or a `with…` relation is processed to itself |
| ExpanderProofs.HandleCallMono | src/ConditionsHandler.php:154-178 | one more unit of fuel changes no result except running out of fuel (one such lemma for each function of the recursion) |
| ExpanderProofs.HandleCallMore | src/ConditionsHandler.php:154-178 | any larger fuel gives the same settled call result |
| ExpanderProofs.ProcessConditionMore | src/ConditionsHandler.php:580-592 | any larger fuel gives the same settled processed condition |
| Handler.ConditionsHandler.ForCall | src/ConditionsHandler.php:102-113 | a handler for a call holds the query, token, name and arguments, with every parsed field at its default |
| Handler.ConditionsHandler.ForOptions | src/ConditionsHandler.php:102-113 | a handler built from options takes `not`, `returnsConditionOnly` and `combineWith` from them |
| Handler.ConditionsHandler.ParseConditionCall | src/ConditionsHandler.php:187-198 | it matches exactly when the name parses; on a match it sets the six parsed fields and nothing else, otherwise it changes nothing |
| Handler.ConditionsHandler.EvaluateIf | src/ConditionsHandler.php:228-237 | it updates the arguments and negation and answers as the `If` evaluator does |
| Handler.ConditionsHandler.EvaluateBasedOn | src/ConditionsHandler.php:248-265 | it updates the arguments and negation and answers as the `BasedOn` evaluator does |
| Handler.ConditionsHandler.RunEvaluator | src/ConditionsHandler.php:158-164 | the named evaluator runs, or the call proceeds when there is none |
| Handler.ConditionsHandler.RenderCondition | src/ConditionsHandler.php:276-288 | the render, with the query replaced in place by the merged one and no other field changed |
| Handler.ConditionsHandler.RenderDirectCondition | src/ConditionsHandler.php:296-308 | a missing condition gives no condition; otherwise the definition is processed and rendered |
| Handler.ConditionsHandler.PrepareRelationCondition | src/ConditionsHandler.php:444-452 | the relation is fetched by its lower-cased getter and bound simply or through its pivot |
| Handler.ConditionsHandler.RenderRelatedCondition | src/ConditionsHandler.php:316-335 | no getter prefix gives no condition; otherwise the relation query, with its conditions applied, is correlated and rendered |
| Handler.ConditionsHandler.ApplyConditionsToRelation | src/ConditionsHandler.php:345-371 | the loop applies the segmented conditions in order (or the first argument as an `and` raw condition when there are no words) |
| Handler.ConditionsHandler.RenderConditionCall | src/ConditionsHandler.php:167-176 | a direct or related render chosen by the related flag, with a falsy render counted as no condition; the handler's query becomes the rendered query and nothing else changes |
| Handler.ConditionsHandler.HandleConditionCall | src/ConditionsHandler.php:154-178 | the whole call: parse, evaluate (a stop returns the query untouched), render; an unparsable name leaves the handler as it was, otherwise the handler holds the parsed fields, the evaluated arguments and `not`, and the rendered query |
| Handler.ConditionsHandler.HandleRawCondition | src/ConditionsHandler.php:567-571 | the raw condition is processed and then rendered with the handler's settings; only the handler's query changes |
| Handler.ConditionsHandler.HandleCall | src/ConditionsHandler.php:125-129 | a fresh handler's `handleConditionCall` |
| Handler.ConditionsHandler.HandleCondition | src/ConditionsHandler.php:141-145 | a fresh handler's `handleRawCondition`, with the options as settings |
| ConditionsEntry.OrNext | src/Conditions.php:44-49 | a truthy handler result is returned; a falsy one becomes the next-call marker; errors propagate |
| ConditionsEntry.HoldingToken | src/Conditions.php:27-36 | the class now holds the token and every other class keeps its own |
| ConditionsEntry.CombinedOptions | src/Conditions.php:58-68 | `combineWith` is overwritten and every other option is passed on unchanged |
| ConditionsEntry.CallFromConditions | src/Conditions.php:44-49 | the class token is fetched (made from the generated number when the stored one is falsy) and the call handled with it, falling through on a falsy result |
| ConditionsEntry.WhereCondition | src/Conditions.php:51-56 | the same for a raw condition with options: the token is made from the generated number when the stored one is falsy |
| ConditionsEntry.AndWhereCondition | src/Conditions.php:58-62 | `whereCondition` with `combineWith` set to `and`; a truthy stored token is kept, a falsy one replaced by the generated number |
| ConditionsEntry.OrWhereCondition | src/Conditions.php:64-68 | `whereCondition` with `combineWith` set to `or`; a truthy stored token is kept, a falsy one replaced by the generated number |
| CallProofs.FallsThroughIff | src/Conditions.php:44-49 | a handled call is "no condition" or truthy, so it falls through exactly when no condition was found |
| CallProofs.NoConditionFallsThrough | src/ConditionsHandler.php:154-178 | a name that does not parse, a missing direct condition, or a related base with no getter prefix gives no condition and falls through |
| CallProofs.EvaluatorStopKeepsQuery | src/ConditionsHandler.php:158-164 | a stopping evaluator returns the query unchanged |
| CallProofs.DirectCallMerges | src/ConditionsHandler.php:296-308 | a direct call with the class's token appends exactly one clause, the processed definition (negated as parsed and evaluated) under the parsed combinator |
| CallProofs.DirectCallConditionOnly | src/ConditionsHandler.php:276-283 | a `…Condition` call returns the processed, possibly negated, definition, or no condition when that is falsy |
| CallProofs.WrongTokenMergesNull | src/Conditions.php:78-86 | a handler with the wrong token merges a `null` condition |
| CallProofs.RelatedCallMerges | src/ConditionsHandler.php:316-335 | a related call appends exactly one clause, the correlation of the relation query once its conditions are applied |
| CallProofs.ApplyEachAppend | src/ConditionsHandler.php:352-360 | applying a list of conditions is applying its first part, then the rest to the result |
| CallProofs.ApplyEachUnknown | src/ConditionsHandler.php:358 | a segmented condition that finds nothing on the relation fails as an unknown method |
| CallProofs.WhereConditionAppends | src/Conditions.php:58-68 | `andWhereCondition`/`orWhereCondition` append exactly one clause of their kind, whatever `combineWith` the options held, negated by the `not` option |
| CallProofs.WhereConditionReplaces | src/Conditions.php:51-56 | `whereCondition` without `combineWith` replaces the query's clauses with the processed condition |

## Left out

- `significance()` casts numeric strings to `float`. The model decides zero-ness on the digits of the numeric string (sign, digits, fraction, exponent) and does not model floating-point rounding.
- Labels (`conditionsLabels`, `getConditionLabel`, `generateConditionLabel`, `src/Conditions.php:158-191`) are not part of this model. They are presentation helpers built on Yii's `Inflector` and take no part in compiling conditions.
- The `StackableCall` trait and `nextCallMethod()` are not part of this model. Passing the call on is modelled as the `NextCall` result.
- PHP reflection is modelled through the `World`: `method_exists`, `call_user_func_array`, dynamic `$this->$method` and `__call` become lookups in `World`. A real method of the query that shadows a virtual name is not modelled.
- `mt_rand()` becomes the parameter `generated` of `TokenStore.HandlerToken`.
- Expander.HandleCall: the source's recursion is unbounded, so the model bounds it with a unary `Fuel` and reports `OutOfFuel` when the fuel runs out. A condition that expands to itself forever is therefore not modelled as non-termination. `ExpanderProofs` shows that extra fuel never changes a settled result.
- Queries are values, not shared objects. `applyConditionsToRelation` changes the relation query in place after the correlated sub-query already refers to it. The model gets the same final state by building the correlation after the conditions are applied. Aliasing of one query object between two places is not modelled.
- `ConditionsHandler::__construct` copies any option key into a field. The model reads only `not`, `returnsConditionOnly` and `combineWith`, and takes `not` and `returnsConditionOnly` by truthiness.
- Condition bodies are pure functions of the query classes, the condition name and the arguments (`World.body`). Side effects of a condition body on the query are not modelled.
- Floating-point values are not modelled: `Value` has no float case, so a float argument of a condition and the `(float)` cast in `significance()` (`src/ConditionsHandler.php:215-217`) are outside the model; a numeric string is judged on its digits, as said above.
- Relations.BindingNeedsRecord: in PHP the relation comes from a getter called on a model instance, so its `primaryModel` is always set and this error is not reachable there. The model keeps the error because `World.relationOf` may hand back any query.
- The trait's own `conditionElems` is modelled as a condition body the `World` must agree with (`Conditions.ElemsInstalled`), not as a method every query class has by construction.
- Conditions.ConditionElems: `array_flatten` (not a native PHP function) is taken as full flattening of nested arrays.
- Relations.SimpleBinding: a relation without a link, or a pivot without `from`, gives `""` where PHP would index a missing element.
- Rendering.RenderFailsIff: the Yii query's `filterWhere`, `andFilterWhere` and `orFilterWhere` are not modelled, so a `combineWith` of `filter`, `andFilter` or `orFilter` is an `UnknownMethod` error in the model where PHP would merge the condition (dropping its empty operands). Only `and`, `or` and no combinator are documented for `combineWith`.
- Any other unknown `<x>Where` method in `renderCondition` is an `UnknownMethod` error, as `__call` would raise.
- The token of each query class other than the one called comes from `World.tokenOf`. This is the token stored by that class's own `getConditionsHandlerToken`.

The documentation and the code disagree in two places. The model follows the code:

- If the words after the relation do not segment completely into conditions, the related call does not fail. `applyConditionsToRelation` ignores the empty result of `parseConditionsFromWords` and correlates the relation without conditions.
- A handler holding the wrong token still merges a condition: `getRawCondition` returns `null`, and `null` is merged as the clause (`CallProofs.WrongTokenMergesNull`).
