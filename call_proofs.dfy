/** What a whole condition call does, end to end: when it falls through,
    when the evaluator leaves the query untouched, and which single
    where-clause a direct, a related or a raw condition adds. */
module CallProofs {
  import opened Php
  import opened Values
  import opened Grammar
  import opened RelationWords
  import opened Relations
  import opened Rendering
  import opened Expander
  import opened ConditionsEntry

  /** The where-clause a call with combinator `comb` adds for condition `c`. */
  function Clause(comb: Combinator, c: Value): Where
  {
    if comb == OrWith then Or(c) else And(c)
  }

  /** A handled call never gives a falsy value other than "no condition", so
      `__callfromConditions` passes the call on exactly when the handler
      found no condition. */
  lemma {:induction false} FallsThroughIff(w: World, fuel: Fuel, q: Query, name: string, args: seq<Value>, token: string)
    ensures HandleCall(w, fuel, q, name, args, token).Ok? ==>
      var o := HandleCall(w, fuel, q, name, args, token).value;
      o == NoCondition || OutcomeTruthy(o)
    ensures OrNext(HandleCall(w, fuel, q, name, args, token)) == Ok(NextCall) <==>
      HandleCall(w, fuel, q, name, args, token) == Ok(NoCondition)
  {
    match ParseName(name)
    case None =>
    case Some(c) =>
      var ev := Evaluate(c.evaluation, args, c.not);
      if ev.proceed {
        var s := Settings(ev.not, c.conditionOnly, CombineValue(c.combineWith));
        var rendered := if c.related then RenderRelated(w, fuel, q, token, c.base, ev.args, s)
                        else RenderDirect(w, fuel, q, token, c.base, ev.args, s);
        assert HandleCall(w, fuel, q, name, args, token) == Found(rendered);
      }
  }

  /** A name of no condition form, a direct condition the query does not
      have, and a related name none of whose word prefixes is a relation of
      the model all give "no condition", and the call falls through. */
  lemma {:induction false} NoConditionFallsThrough(w: World, fuel: Fuel, q: Query, name: string, args: seq<Value>, token: string)
    requires || ParseName(name).None?
             || (var c := ParseName(name).value;
                 && Evaluate(c.evaluation, args, c.not).proceed
                 && (if c.related then FirstRelation(WordsOf(c.base), w.modelMethods(q.modelClass)).None?
                     else !Conditions.ExistsCondition(w, q.queryClass, c.base)))
    ensures HandleCall(w, fuel, q, name, args, token) == Ok(NoCondition)
    ensures OrNext(HandleCall(w, fuel, q, name, args, token)) == Ok(NextCall)
  {
    if ParseName(name).Some? {
      var c := ParseName(name).value;
      var ev := Evaluate(c.evaluation, args, c.not);
      var s := Settings(ev.not, c.conditionOnly, CombineValue(c.combineWith));
      if c.related {
        assert RenderRelated(w, fuel, q, token, c.base, ev.args, s) == Ok(NoCondition);
      } else {
        assert RenderDirect(w, fuel, q, token, c.base, ev.args, s) == Ok(NoCondition);
      }
    }
  }

  /** An evaluator that stops hands back the query as it was. */
  lemma {:induction false} EvaluatorStopKeepsQuery(w: World, fuel: Fuel, q: Query, name: string, args: seq<Value>, token: string)
    requires ParseName(name).Some?
    requires var c := ParseName(name).value; !Evaluate(c.evaluation, args, c.not).proceed
    ensures HandleCall(w, fuel, q, name, args, token) == Ok(QueryOut(q))
    ensures ParseName(name).value.evaluation.Some?
  {
  }

  /** A direct condition call with the class's token merges the processed
      definition (for the arguments the evaluator left) into the query as
      exactly one new where-clause, negated when the name or the evaluator
      says so, with the combinator of the name; nothing else changes. */
  lemma {:induction false} DirectCallMerges(w: World, fuel: Fuel, q: Query, name: string, args: seq<Value>, p: Value)
    requires ParseName(name).Some?
    requires var c := ParseName(name).value;
      && !c.related && !c.conditionOnly
      && Evaluate(c.evaluation, args, c.not).proceed
      && Conditions.ExistsCondition(w, q.queryClass, c.base)
      && ProcessCondition(w, fuel, q, w.tokenOf(q.queryClass),
           w.body(q.queryClass, q.modelClass, "condition" + Lower(c.base), Evaluate(c.evaluation, args, c.not).args)) == Ok(p)
    ensures var c := ParseName(name).value;
      var not := Evaluate(c.evaluation, args, c.not).not;
      HandleCall(w, fuel, q, name, args, w.tokenOf(q.queryClass))
        == Ok(QueryOut(q.(wheres := q.wheres + [Clause(c.combineWith, Negated(not, p))])))
  {
    var c := ParseName(name).value;
    var ev := Evaluate(c.evaluation, args, c.not);
    var token := w.tokenOf(q.queryClass);
    var s := Settings(ev.not, c.conditionOnly, CombineValue(c.combineWith));
    assert Conditions.GetRawCondition(w, Stored(w, q), q, c.base, ev.args, token)
      == w.body(q.queryClass, q.modelClass, "condition" + Lower(c.base), ev.args);
    RenderCombines(q, ev.not, c.combineWith, p);
    assert RenderDirect(w, fuel, q, token, c.base, ev.args, s) == Render(q, ev.not, false, CombineValue(c.combineWith), p);
  }

  /** A `…Condition` call gives back the processed (and possibly negated)
      definition instead of merging it, and falls through when that is falsy. */
  lemma {:induction false} DirectCallConditionOnly(w: World, fuel: Fuel, q: Query, name: string, args: seq<Value>, p: Value)
    requires ParseName(name).Some?
    requires var c := ParseName(name).value;
      && !c.related && c.conditionOnly
      && Evaluate(c.evaluation, args, c.not).proceed
      && Conditions.ExistsCondition(w, q.queryClass, c.base)
      && ProcessCondition(w, fuel, q, w.tokenOf(q.queryClass),
           w.body(q.queryClass, q.modelClass, "condition" + Lower(c.base), Evaluate(c.evaluation, args, c.not).args)) == Ok(p)
    ensures var c := ParseName(name).value;
      var n := Negated(Evaluate(c.evaluation, args, c.not).not, p);
      HandleCall(w, fuel, q, name, args, w.tokenOf(q.queryClass)) == Ok(if Truthy(n) then CondOut(n) else NoCondition)
  {
    var c := ParseName(name).value;
    var ev := Evaluate(c.evaluation, args, c.not);
    var token := w.tokenOf(q.queryClass);
    var s := Settings(ev.not, c.conditionOnly, CombineValue(c.combineWith));
    assert Conditions.GetRawCondition(w, Stored(w, q), q, c.base, ev.args, token)
      == w.body(q.queryClass, q.modelClass, "condition" + Lower(c.base), ev.args);
    assert RenderDirect(w, fuel, q, token, c.base, ev.args, s) == Ok(CondOut(Negated(ev.not, p)));
  }

  /** A handler holding the wrong token reads no definition: the condition
      it merges is `null`. */
  lemma {:induction false} WrongTokenMergesNull(w: World, fuel: Fuel, q: Query, name: string, args: seq<Value>, token: string)
    requires token != w.tokenOf(q.queryClass)
    requires ParseName(name).Some?
    requires var c := ParseName(name).value;
      && !c.related && !c.conditionOnly
      && Evaluate(c.evaluation, args, c.not).proceed
      && Conditions.ExistsCondition(w, q.queryClass, c.base)
    ensures var c := ParseName(name).value;
      var not := Evaluate(c.evaluation, args, c.not).not;
      HandleCall(w, fuel, q, name, args, token)
        == Ok(QueryOut(q.(wheres := q.wheres + [Clause(c.combineWith, Negated(not, Null))])))
  {
    var c := ParseName(name).value;
    var ev := Evaluate(c.evaluation, args, c.not);
    var s := Settings(ev.not, c.conditionOnly, CombineValue(c.combineWith));
    assert Conditions.GetRawCondition(w, Stored(w, q), q, c.base, ev.args, token) == Null;
    assert ProcessElem(w, fuel, q, token, Null) == Ok(Null);
    assert ProcessCondition(w, fuel, q, token, Null) == Ok(Null);
    RenderCombines(q, ev.not, c.combineWith, Null);
    assert RenderDirect(w, fuel, q, token, c.base, ev.args, s) == Render(q, ev.not, false, CombineValue(c.combineWith), Null);
  }

  /** A related condition call merges one where-clause: the parent's local
      column correlated with the relation, once the remaining words have
      been applied to it as conditions. */
  lemma {:induction false} RelatedCallMerges(w: World, fuel: Fuel, q: Query, name: string, args: seq<Value>, token: string,
                                             split: Split, b: Binding, finished: Query)
    requires ParseName(name).Some?
    requires var c := ParseName(name).value;
      && c.related && !c.conditionOnly
      && Evaluate(c.evaluation, args, c.not).proceed
      && FirstRelation(WordsOf(c.base), w.modelMethods(q.modelClass)) == Some(split)
      && RelationBinding(w, q.modelClass, split.relationName) == Ok(b)
      && ApplyConditions(w, fuel, b.relation, split.conditionsWords, Evaluate(c.evaluation, args, c.not).args) == Ok(finished)
    ensures var c := ParseName(name).value;
      var not := Evaluate(c.evaluation, args, c.not).not;
      HandleCall(w, fuel, q, name, args, token)
        == Ok(QueryOut(q.(wheres := q.wheres + [Clause(c.combineWith, Negated(not, Correlation(b, finished)))])))
  {
    var c := ParseName(name).value;
    var ev := Evaluate(c.evaluation, args, c.not);
    var s := Settings(ev.not, c.conditionOnly, CombineValue(c.combineWith));
    RenderCombines(q, ev.not, c.combineWith, Correlation(b, finished));
    assert RenderRelated(w, fuel, q, token, c.base, ev.args, s)
      == Render(q, ev.not, false, CombineValue(c.combineWith), Correlation(b, finished));
  }

  /** The conditions of a relation are applied one after another: applying
      a list is applying its first part, then the rest to the result. */
  lemma {:induction false} ApplyEachAppend(w: World, fuel: Fuel, sub: Query, first: seq<string>, rest: seq<string>, args: seq<Value>)
    ensures ApplyEach(w, fuel, sub, first + rest, args) ==
      match ApplyEach(w, fuel, sub, first, args)
      case Err(e) => Err(e)
      case Ok(mid) => ApplyEach(w, fuel, mid, rest, args)
    decreases |first|
  {
    if first == [] {
      assert first + rest == rest;
    } else if !fuel.Zero? {
      assert (first + rest)[0] == first[0];
      assert (first + rest)[1..] == first[1..] + rest;
      match AfterCall(sub, first[0], HandleCall(w, fuel.rest, sub, first[0], args, w.tokenOf(sub.queryClass)))
      case Err(_) =>
      case Ok(next) => ApplyEachAppend(w, fuel, next, first[1..], rest, args);
    }
  }

  /** A condition named in the words that finds nothing on the relation
      fails the call as an unknown method, as `__call` would. */
  lemma {:induction false} ApplyEachUnknown(w: World, fuel: Fuel, sub: Query, condition: string, rest: seq<string>, args: seq<Value>)
    requires fuel.Succ?
    requires HandleCall(w, fuel.rest, sub, condition, args, w.tokenOf(sub.queryClass)) == Ok(NoCondition)
    ensures ApplyEach(w, fuel, sub, [condition] + rest, args) == Err(UnknownMethod(condition))
  {
    assert ([condition] + rest)[0] == condition;
  }

  /** `andWhereCondition` and `orWhereCondition` add exactly one clause,
      `and` or `or` as named, whatever `combineWith` the options held; the
      `not` option negates it. */
  lemma {:induction false} WhereConditionAppends(w: World, fuel: Fuel, q: Query, raw: Value, options: map<string, Value>,
                                                 token: string, comb: Combinator, p: Value)
    requires ProcessCondition(w, fuel, q, token, raw) == Ok(p)
    requires !Truthy(OptionValue(options, "returnsConditionOnly"))
    ensures var not := Truthy(OptionValue(options, "not"));
      HandleRaw(w, fuel, q, raw, CombinedOptions(options, if comb == OrWith then "or" else "and"), token)
        == Ok(QueryOut(q.(wheres := q.wheres + [Clause(comb, Negated(not, p))])))
  {
    var opts := CombinedOptions(options, if comb == OrWith then "or" else "and");
    var not := Truthy(OptionValue(options, "not"));
    assert OptionSettings(opts) == Settings(not, false, CombineValue(comb));
    RenderCombines(q, not, comb, p);
  }

  /** `whereCondition` without `combineWith` calls `where()`, which replaces
      every earlier clause by the processed condition. */
  lemma {:induction false} WhereConditionReplaces(w: World, fuel: Fuel, q: Query, raw: Value, options: map<string, Value>,
                                                  token: string, p: Value)
    requires ProcessCondition(w, fuel, q, token, raw) == Ok(p)
    requires "combineWith" !in options && !Truthy(OptionValue(options, "returnsConditionOnly"))
    ensures HandleRaw(w, fuel, q, raw, options, token)
      == Ok(QueryOut(q.(wheres := [Replace(Negated(Truthy(OptionValue(options, "not")), p))])))
  {
    RenderWithoutCombine(q, Truthy(OptionValue(options, "not")), p);
  }
}
