/** `ConditionsHandler`: one handler object per condition call (or per raw
    condition), which parses the called name into its fields, runs the
    evaluator, and renders the direct or the related condition. Each method
    is proved to compute what the functions of `Expander` and `Rendering`
    say, and to leave the handler in the state they describe; nested
    condition calls, made through the query's `__call` in the source, build
    handlers of their own. */
module Handler {
  import opened Values
  import opened Grammar
  import opened Conditions
  import opened RelationWords
  import opened Relations
  import opened Rendering
  import opened Expander

  /** All fields of a handler, as one value. */
  datatype HandlerState = HandlerState(
    query: Query,
    token: string,
    virtualMethod: string,
    args: seq<Value>,
    combineWith: Value,
    not: bool,
    baseCondition: string,
    evaluation: Option<Evaluator>,
    returnsConditionOnly: bool,
    isRelatedCondition: bool)

  class ConditionsHandler {
    var query: Query
    var token: string
    var virtualMethod: string
    var args: seq<Value>
    var combineWith: Value
    var not: bool
    var baseCondition: string
    var evaluation: Option<Evaluator>
    var returnsConditionOnly: bool
    var isRelatedCondition: bool

    function State(): HandlerState
      reads this
    {
      HandlerState(query, token, virtualMethod, args, combineWith, not, baseCondition,
                   evaluation, returnsConditionOnly, isRelatedCondition)
    }

    /** What `renderCondition` reads besides the query. */
    function CurrentSettings(): Settings
      reads this
    {
      Settings(not, returnsConditionOnly, combineWith)
    }

    /** `new self($query, $token, compact('virtualMethod', 'args'))`: every
        other field starts out unset. */
    constructor ForCall(q: Query, t: string, name: string, a: seq<Value>)
      ensures State() == HandlerState(q, t, name, a, Null, false, "", None, false, false)
    {
      query := q;
      token := t;
      virtualMethod := name;
      args := a;
      combineWith := Null;
      not := false;
      baseCondition := "";
      evaluation := None;
      returnsConditionOnly := false;
      isRelatedCondition := false;
    }

    /** `new self($query, $token, $options)` for a raw condition: the options
        set the fields of the same name. */
    constructor ForOptions(q: Query, t: string, options: map<string, Value>)
      ensures query == q && token == t && args == []
      ensures CurrentSettings() == OptionSettings(options)
    {
      query := q;
      token := t;
      virtualMethod := "";
      args := [];
      combineWith := OptionValue(options, "combineWith");
      not := Truthy(OptionValue(options, "not"));
      baseCondition := "";
      evaluation := None;
      returnsConditionOnly := Truthy(OptionValue(options, "returnsConditionOnly"));
      isRelatedCondition := false;
    }

    /** `parseConditionCall()`: on a name of condition form, the fields
        take what the name spells; otherwise nothing changes. */
    method ParseConditionCall() returns (matched: bool)
      modifies this
      ensures matched <==> ParseName(old(virtualMethod)).Some?
      ensures !matched ==> State() == old(State())
      ensures matched ==>
        var c := ParseName(old(virtualMethod)).value;
        State() == old(State()).(combineWith := CombineValue(c.combineWith), not := c.not,
          baseCondition := c.base, evaluation := c.evaluation,
          returnsConditionOnly := c.conditionOnly, isRelatedCondition := c.related)
    {
      var m := ParseName(virtualMethod);
      matched := m.Some?;
      if matched {
        var c := m.value;
        combineWith := if c.combineWith == OrWith then Str("or") else Str("and");
        not := c.not;
        baseCondition := c.base;
        evaluation := c.evaluation;
        returnsConditionOnly := c.conditionOnly;
        isRelatedCondition := c.related;
      }
    }

    /** `evaluateIf()`: shifts the first argument off and goes on only when it
        is affirmatively significant. */
    method EvaluateIf() returns (proceed: bool)
      modifies this
      ensures var e := Rendering.EvaluateIf(old(args), old(not));
        proceed == e.proceed && State() == old(State()).(args := e.args, not := e.not)
    {
      var evaluateArg := Null;
      if args != [] {
        evaluateArg := args[0];
        args := args[1..];
      }
      proceed := Significance.SignificanceOf(evaluateArg) == Significance.Affirmative;
    }

    /** `evaluateBasedOn()`: shifts the first argument off, stops on an
        insignificant one and flips the negation on a negative one. */
    method EvaluateBasedOn() returns (proceed: bool)
      modifies this
      ensures var e := Rendering.EvaluateBasedOn(old(args), old(not));
        proceed == e.proceed && State() == old(State()).(args := e.args, not := e.not)
    {
      var evaluateArg := Null;
      if args != [] {
        evaluateArg := args[0];
        args := args[1..];
      }
      var argValue := Significance.SignificanceOf(evaluateArg);
      if argValue == Significance.NonSignificant {
        return false;
      }
      if argValue == Significance.Negative {
        not := !not;
      }
      proceed := true;
    }

    /** `renderCondition($processedCondition)`: a merge into the query
        changes the handler's query in place. */
    method RenderCondition(processed: Value) returns (r: Res<Outcome>)
      modifies this
      ensures r == Render(old(query), old(not), old(returnsConditionOnly), old(combineWith), processed)
      ensures State() == old(State()).(query := if r.Ok? && r.value.QueryOut? then r.value.q else old(query))
    {
      var condition := if not then NotOf(processed) else processed;
      if returnsConditionOnly {
        r := Ok(CondOut(condition));
      } else {
        var merged := CallWhere(query, combineWith, condition);
        match merged
        case Ok(q') =>
          query := q';
          r := Ok(QueryOut(q'));
        case Err(e) =>
          r := Err(e);
      }
    }

    /** `renderCondition` of a processing result, failing with it. */
    method RenderResult(processed: Res<Value>) returns (r: Res<Outcome>)
      modifies this
      ensures r == RenderProcessed(old(query), old(CurrentSettings()), processed)
      ensures State() == old(State()).(query := if r.Ok? && r.value.QueryOut? then r.value.q else old(query))
    {
      match processed
      case Err(e) =>
        r := Err(e);
      case Ok(p) =>
        r := RenderCondition(p);
    }

    /** `renderDirectCondition()`: nothing (null) when the query has no such
        condition, else its definition for the arguments, processed and rendered. */
    method RenderDirectCondition(w: World, fuel: Fuel) returns (r: Res<Outcome>)
      modifies this
      ensures r == RenderDirect(w, fuel, old(query), old(token), old(baseCondition), old(args), old(CurrentSettings()))
      ensures State() == old(State()).(query := if r.Ok? && r.value.QueryOut? then r.value.q else old(query))
      decreases fuel, 3
    {
      if ExistsCondition(w, query.queryClass, baseCondition) {
        var rawCondition := GetRawCondition(w, Stored(w, query), query, baseCondition, args, token);
        var processedCondition := ProcessCondition(w, fuel, query, token, rawCondition);
        r := RenderResult(processedCondition);
      } else {
        r := Ok(NoCondition);
      }
    }

    /** `prepareRelationCondition($relationName)`: the relation the model's
        getter returns, prepared as a compound relation when it goes through
        a pivot and as a simple one otherwise. */
    method PrepareRelationCondition(w: World, relationName: string) returns (r: Res<Binding>)
      ensures r == RelationBinding(w, query.modelClass, relationName)
    {
      var relationFn := Php.Lower("get" + Php.UcFirst(relationName));
      var relation := w.relationOf(query.modelClass, relationFn);
      if relation.None? {
        return Err(NotARelation(relationFn));
      }
      if relation.value.via != NoVia {
        r := CompoundRelation(w, relation.value);
      } else {
        r := SimpleRelation(w, relation.value);
      }
    }

    /** `renderRelatedCondition()`: nothing (null) when no word prefix of the
        base names a relation; else the relation prepared, the remaining
        words applied to it as conditions, and its correlation rendered. */
    method RenderRelatedCondition(w: World, fuel: Fuel) returns (r: Res<Outcome>)
      modifies this
      ensures r == RenderRelated(w, fuel, old(query), old(token), old(baseCondition), old(args), old(CurrentSettings()))
      ensures State() == old(State()).(query := if r.Ok? && r.value.QueryOut? then r.value.q else old(query))
      decreases fuel, 3
    {
      var splittedWords := SplitRelationFromConditionsWords(baseCondition, w.modelMethods(query.modelClass));
      if splittedWords.None? {
        return Ok(NoCondition);
      }
      var preparedResult := PrepareRelationCondition(w, splittedWords.value.relationName);
      if preparedResult.Err? {
        return Err(preparedResult.error);
      }
      var b := preparedResult.value;
      var finished := ApplyConditionsToRelation(w, fuel, b.relation, splittedWords.value.conditionsWords);
      r := RenderResult(Correlated(b, finished));
    }

    /** `applyConditionsToRelation($subQuery, $words)`: each condition the
        words segment into is called on the sub-query with the handler's
        arguments, in order; without words, the first argument goes to
        `andWhereCondition`. */
    method ApplyConditionsToRelation(w: World, fuel: Fuel, sub: Query, words: seq<string>) returns (r: Res<Query>)
      ensures r == ApplyConditions(w, fuel, sub, words, args)
      decreases fuel, 2
    {
      if words != [] {
        var conditions := ParseConditionsFromWords(w.queryMethods(sub.queryClass), words);
        if conditions.None? {
          return Ok(sub);
        }
        var cs := conditions.value;
        var subQuery := sub;
        var i := 0;
        while i < |cs|
          invariant 0 <= i <= |cs|
          invariant ApplyEach(w, fuel, sub, cs, args) == ApplyEach(w, fuel, subQuery, cs[i..], args)
        {
          if fuel.Zero? {
            return Err(OutOfFuel);
          }
          var called := ConditionsHandler.HandleCall(w, fuel.rest, subQuery, cs[i], args, w.tokenOf(subQuery.queryClass));
          var next := AfterCall(subQuery, cs[i], called);
          if next.Err? {
            return Err(next.error);
          }
          assert cs[i..][1..] == cs[i + 1..];
          subQuery := next.value;
          i := i + 1;
        }
        r := Ok(subQuery);
      } else if args != [] {
        if fuel.Zero? {
          return Err(OutOfFuel);
        }
        var handled := ConditionsHandler.HandleCondition(w, fuel.rest, sub, args[0], map["combineWith" := Str("and")],
                                                         w.tokenOf(sub.queryClass));
        r := AfterRaw(sub, handled);
      } else {
        r := Ok(sub);
      }
    }

    /** `handleConditionCall()`: nothing (false) for a name that is not of
        condition form; the query untouched when the evaluator stops;
        otherwise the related or direct render, nothing when that is falsy. */
    method HandleConditionCall(w: World, fuel: Fuel) returns (r: Res<Outcome>)
      modifies this
      ensures r == Expander.HandleCall(w, fuel, old(query), old(virtualMethod), old(args), old(token))
      ensures ParseName(old(virtualMethod)).None? ==> State() == old(State())
      ensures ParseName(old(virtualMethod)).Some? ==>
        var c := ParseName(old(virtualMethod)).value;
        var e := Evaluate(c.evaluation, old(args), c.not);
        State() == old(State()).(combineWith := CombineValue(c.combineWith), not := e.not,
          baseCondition := c.base, evaluation := c.evaluation,
          returnsConditionOnly := c.conditionOnly, isRelatedCondition := c.related, args := e.args,
          query := if r.Ok? && r.value.QueryOut? then r.value.q else old(query))
      decreases fuel, 5
    {
      var matched := ParseConditionCall();
      if !matched {
        return Ok(NoCondition);
      }
      var proceed := RunEvaluator();
      if !proceed {
        return Ok(QueryOut(query));
      }
      r := RenderConditionCall(w, fuel);
    }

    /** The evaluator step of `handleConditionCall()`: `evaluate<If|BasedOn>()`
        when the name carries an evaluator, otherwise go on unchanged. */
    method RunEvaluator() returns (proceed: bool)
      modifies this
      ensures var e := Evaluate(old(evaluation), old(args), old(not));
        proceed == e.proceed && State() == old(State()).(args := e.args, not := e.not)
    {
      proceed := true;
      if evaluation.Some? {
        if evaluation.value == If {
          proceed := EvaluateIf();
        } else {
          proceed := EvaluateBasedOn();
        }
      }
    }

    /** The end of `handleConditionCall()`: the related or the direct render,
        and nothing (false) when that is falsy. */
    method RenderConditionCall(w: World, fuel: Fuel) returns (r: Res<Outcome>)
      modifies this
      ensures var q, t, base, a, s := old(query), old(token), old(baseCondition), old(args), old(CurrentSettings());
        r == Found(if old(isRelatedCondition) then RenderRelated(w, fuel, q, t, base, a, s)
                   else RenderDirect(w, fuel, q, t, base, a, s))
      ensures State() == old(State()).(query := if r.Ok? && r.value.QueryOut? then r.value.q else old(query))
      decreases fuel, 4
    {
      var rendered;
      if isRelatedCondition {
        rendered := RenderRelatedCondition(w, fuel);
      } else {
        rendered := RenderDirectCondition(w, fuel);
      }
      r := Found(rendered);
    }

    /** `handleRawCondition($rawCondition)`: the raw condition processed and rendered. */
    method HandleRawCondition(w: World, fuel: Fuel, rawCondition: Value) returns (r: Res<Outcome>)
      modifies this
      ensures r == RenderProcessed(old(query), old(CurrentSettings()), ProcessCondition(w, fuel, old(query), old(token), rawCondition))
      ensures State() == old(State()).(query := if r.Ok? && r.value.QueryOut? then r.value.q else old(query))
      decreases fuel, 4
    {
      var processedCondition := ProcessCondition(w, fuel, query, token, rawCondition);
      r := RenderResult(processedCondition);
    }

    /** The static `handleCall($query, $virtualMethod, $args, $token)`, on a handler of its own. */
    static method HandleCall(w: World, fuel: Fuel, q: Query, name: string, a: seq<Value>, t: string) returns (r: Res<Outcome>)
      ensures r == Expander.HandleCall(w, fuel, q, name, a, t)
      decreases fuel, 6
    {
      var handler := new ConditionsHandler.ForCall(q, t, name, a);
      r := handler.HandleConditionCall(w, fuel);
    }

    /** The static `handleCondition($query, $rawCondition, $options, $token)`, on a handler of its own. */
    static method HandleCondition(w: World, fuel: Fuel, q: Query, rawCondition: Value, options: map<string, Value>, t: string)
      returns (r: Res<Outcome>)
      ensures r == HandleRaw(w, fuel, q, rawCondition, options, t)
      decreases fuel, 6
    {
      var handler := new ConditionsHandler.ForOptions(q, t, options);
      r := handler.HandleRawCondition(w, fuel, rawCondition);
    }
  }
}
