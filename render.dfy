/** The evaluators `If` and `BasedOn`, which read the first argument of a
    call before the condition is rendered, and the renderer, which negates
    a processed condition when asked and then either returns it or merges
    it into the query with the `where` method `combineWith` names. */
module Rendering {
  import opened Php
  import opened Values
  import opened Grammar
  import opened Significance

  /** What handling a condition gives back: nothing (`false`/`null`, so the
      call falls through), the query, or the processed condition alone. */
  datatype Outcome = NoCondition | QueryOut(q: Query) | CondOut(v: Value)

  /** PHP truthiness of an outcome. */
  predicate OutcomeTruthy(o: Outcome)
  {
    match o
    case NoCondition => false
    case QueryOut(_) => true
    case CondOut(v) => Truthy(v)
  }

  // ---------------------------------------------------------------------------
  // Evaluators

  /** The handler's state after an evaluator ran: whether processing goes on,
      the arguments left, and the negation flag. */
  datatype Evaluated = Evaluated(proceed: bool, args: seq<Value>, not: bool)

  /** The argument an evaluator reads: the first one, or `null` when there is none. */
  function FirstArg(args: seq<Value>): Value
  {
    if args == [] then Null else args[0]
  }

  /** The arguments after `array_shift`. */
  function RestArgs(args: seq<Value>): seq<Value>
  {
    if args == [] then [] else args[1..]
  }

  /** `evaluateIf()`: go on only when the first argument is affirmatively significant. */
  function EvaluateIf(args: seq<Value>, not: bool): Evaluated
  {
    Evaluated(SignificanceOf(FirstArg(args)) == Affirmative, RestArgs(args), not)
  }

  /** `evaluateBasedOn()`: stop on an insignificant first argument; a
      negative one flips the negation. */
  function EvaluateBasedOn(args: seq<Value>, not: bool): Evaluated
  {
    match SignificanceOf(FirstArg(args))
    case NonSignificant => Evaluated(false, RestArgs(args), not)
    case Negative => Evaluated(true, RestArgs(args), !not)
    case Affirmative => Evaluated(true, RestArgs(args), not)
  }

  /** The evaluator a call names, if any. */
  function Evaluate(evaluation: Option<Evaluator>, args: seq<Value>, not: bool): Evaluated
  {
    match evaluation
    case None => Evaluated(true, args, not)
    case Some(If) => EvaluateIf(args, not)
    case Some(BasedOn) => EvaluateBasedOn(args, not)
  }

  /** Each evaluator removes exactly the first argument and keeps the rest in order. */
  lemma {:induction false} EvaluatorsShift(args: seq<Value>, not: bool)
    ensures args != [] ==> EvaluateIf(args, not).args == args[1..] && EvaluateBasedOn(args, not).args == args[1..]
    ensures args == [] ==> EvaluateIf(args, not).args == [] && EvaluateBasedOn(args, not).args == []
    ensures |EvaluateIf(args, not).args| == |EvaluateBasedOn(args, not).args| == if args == [] then 0 else |args| - 1
  {
  }

  /** `If` goes on exactly when its argument is affirmative, and never touches the negation. */
  lemma {:induction false} EvaluateIfIff(args: seq<Value>, not: bool)
    ensures EvaluateIf(args, not).proceed <==> args != [] && SignificanceOf(args[0]) == Affirmative
    ensures EvaluateIf(args, not).not == not
  {
  }

  /** `BasedOn` stops exactly when its argument is insignificant (missing,
      null or blank), and flips the negation exactly when it is negative. */
  lemma {:induction false} EvaluateBasedOnIff(args: seq<Value>, not: bool)
    ensures !EvaluateBasedOn(args, not).proceed <==> args == [] || SignificanceOf(args[0]) == NonSignificant
    ensures EvaluateBasedOn(args, not).not != not <==> args != [] && SignificanceOf(args[0]) == Negative
  {
  }

  /** `activeIf('0')` stops and `activeIf('1')` goes on. */
  lemma {:induction false} EvaluateIfExamples(rest: seq<Value>)
    ensures !EvaluateIf([Str("0")] + rest, false).proceed
    ensures EvaluateIf([Str("1")] + rest, false).proceed
  {
    SignificanceDigit('0');
    SignificanceDigit('1');
  }

  /** `activeBasedOn('0')` goes on negated and `activeBasedOn('  ')` stops. */
  lemma {:induction false} EvaluateBasedOnExamples(rest: seq<Value>)
    ensures EvaluateBasedOn([Str("0")] + rest, false) == Evaluated(true, rest, true)
    ensures EvaluateBasedOn([Str("  ")] + rest, false) == Evaluated(false, rest, false)
  {
    SignificanceDigit('0');
    SignificanceBlank("  ");
    assert ([Str("0")] + rest)[1..] == rest;
    assert ([Str("  ")] + rest)[1..] == rest;
  }

  // ---------------------------------------------------------------------------
  // Rendering

  /** `['not', $c]` */
  function NotOf(c: Value): Value
  {
    Arr([Entry(IntKey(0), Str("not")), Entry(IntKey(1), c)])
  }

  /** The condition after the negation flag. */
  function Negated(not: bool, c: Value): Value
  {
    if not then NotOf(c) else c
  }

  /** `$this->query->$method($condition)` with `$method = $this->combineWith . 'Where'`,
      the method looked up regardless of letter case. A missing `combineWith`
      (`null`) gives `Where`, that is `where()`, which replaces earlier clauses. */
  function CallWhere(q: Query, combineWith: Value, c: Value): Res<Query>
  {
    match ToPhpString(combineWith)
    case None => Err(NotConvertible)
    case Some(s) =>
      var called := Lower(s + "Where");
      if called == "andwhere" then Ok(AndWhere(q, c))
      else if called == "orwhere" then Ok(OrWhere(q, c))
      else if called == "where" then Ok(SetWhere(q, c))
      else Err(UnknownMethod(s + "Where"))
  }

  /** `renderCondition($processedCondition)` */
  function Render(q: Query, not: bool, conditionOnly: bool, combineWith: Value, processed: Value): Res<Outcome>
  {
    var c := Negated(not, processed);
    if conditionOnly then Ok(CondOut(c))
    else match CallWhere(q, combineWith, c)
      case Ok(q') => Ok(QueryOut(q'))
      case Err(e) => Err(e)
  }

  /** The `combineWith` a parsed call carries: `'or'` only for `or`, else `'and'`. */
  function CombineValue(c: Combinator): Value
  {
    if c == OrWith then Str("or") else Str("and")
  }

  /** Negation wraps the condition as `['not', c]` exactly when it is set; a
      condition-only render returns that value and leaves the query alone. */
  lemma {:induction false} RenderConditionOnly(q: Query, not: bool, combineWith: Value, p: Value)
    ensures Render(q, not, true, combineWith, p) == Ok(CondOut(Negated(not, p)))
    ensures Negated(not, p) == p <==> !not
    ensures not ==> (Negated(not, p).Arr? && |Negated(not, p).entries| == 2
        && Negated(not, p).entries[0].val == Str("not") && Negated(not, p).entries[1].val == p)
  {
    if not { NotOfNotSelf(p); }
  }

  /** `['not', c]` is never `c` itself (it is strictly larger). */
  lemma {:induction false} NotOfNotSelf(c: Value)
    ensures NotOf(c) != c
  {
    assert NotOf(c).entries[1].val == c;
  }

  /** A parsed call merges its condition with exactly one `andWhere` or
      `orWhere`, the one its combinator names, and nothing else of the
      query changes. */
  lemma {:induction false} RenderCombines(q: Query, not: bool, comb: Combinator, p: Value)
    ensures var r := Render(q, not, false, CombineValue(comb), p);
      && r.Ok? && r.value.QueryOut?
      && r.value.q == q.(wheres := r.value.q.wheres)
      && r.value.q.wheres == q.wheres + [if comb == OrWith then Or(Negated(not, p)) else And(Negated(not, p))]
  {
    assert Lower("and" + "Where") == "andwhere";
    assert Lower("or" + "Where") == "orwhere";
  }

  /** Without a `combineWith` option, `whereCondition` calls `where()`: the
      condition replaces every earlier clause. */
  lemma {:induction false} RenderWithoutCombine(q: Query, not: bool, p: Value)
    ensures Render(q, not, false, Null, p) == Ok(QueryOut(q.(wheres := [Replace(Negated(not, p))])))
  {
    assert Lower("" + "Where") == "where";
  }

  /** A query merge fails exactly when `combineWith` does not name a `where` method. */
  lemma {:induction false} RenderFailsIff(q: Query, not: bool, combineWith: Value, p: Value)
    ensures Render(q, not, false, combineWith, p).Err? <==>
      || ToPhpString(combineWith).None?
      || Lower(ToPhpString(combineWith).value + "Where") !in {"andwhere", "orwhere", "where"}
  {
  }

  /** A negated render is never falsy, and a query render never is. */
  lemma {:induction false} RenderTruthy(q: Query, not: bool, conditionOnly: bool, combineWith: Value, p: Value)
    requires Render(q, not, conditionOnly, combineWith, p).Ok?
    ensures OutcomeTruthy(Render(q, not, conditionOnly, combineWith, p).value) <==> !conditionOnly || not || Truthy(p)
  {
  }
}
