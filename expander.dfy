/** The recursive core of the handler: `processCondition` expands a raw
    condition to a processed one, element by element and to a fixed point,
    and the expansion of a `with…` element runs a whole condition call,
    which may render a relation, apply conditions to it, and expand further.

    The source does not bound this recursion (a condition that names itself
    loops for ever), so each function here takes a `fuel` bound, spent on
    every re-expansion and every nested call; running out is the error
    `OutOfFuel`. More fuel never changes a result other than `OutOfFuel`
    (`ExpanderProofs`). */
module Expander {
  import opened Php
  import opened Values
  import opened Grammar
  import opened Significance
  import opened Conditions
  import opened RelationWords
  import opened Relations
  import opened Rendering

  /** A bound on nested expansions, counted in unary: each re-expansion and
      each nested condition call spends one `Succ`. */
  datatype Fuel = Zero | Succ(rest: Fuel)

  // ---------------------------------------------------------------------------
  // `name:arg1,arg2` elements

  /** An element split into a condition name and its arguments. */
  datatype Token = Token(name: string, args: seq<string>)

  /** The first word character at or after `i` (`|s|` if there is none). */
  function WordStart(s: string, i: nat): (r: nat)
    requires i <= |s|
    ensures i <= r <= |s| && (r < |s| ==> IsWordChar(s[r]))
    ensures forall j :: i <= j < r ==> !IsWordChar(s[j])
    decreases |s| - i
  {
    if i == |s| || IsWordChar(s[i]) then i else WordStart(s, i + 1)
  }

  /** The end of the run of word characters starting at `i`. */
  function WordEnd(s: string, i: nat): (r: nat)
    requires i <= |s|
    ensures i <= r <= |s| && (r == |s| || !IsWordChar(s[r]))
    ensures forall j :: i <= j < r ==> IsWordChar(s[j])
    decreases |s| - i
  {
    if i < |s| && IsWordChar(s[i]) then WordEnd(s, i + 1) else i
  }

  /** The first newline at or after `i` (`|s|` if there is none): where `.*` stops. */
  function LineEnd(s: string, i: nat): (r: nat)
    requires i <= |s|
    ensures i <= r <= |s| && (r == |s| || s[r] == '\n')
    ensures forall j :: i <= j < r ==> s[j] != '\n'
    decreases |s| - i
  {
    if i == |s| || s[i] == '\n' then i else LineEnd(s, i + 1)
  }

  /** `preg_match('/(\w+)(?:\:(.*))?/', $elem, $match)` and what is read
      from it: the first run of word characters is the name and, when a colon
      follows it at once, the rest of that line split on commas gives the
      arguments. Without any word character the whole element is the name. */
  function ParseToken(s: string): Token
  {
    var st := WordStart(s, 0);
    if st == |s| then Token(s, [])
    else
      var en := WordEnd(s, st);
      if en < |s| && s[en] == ':' then Token(s[st..en], Explode(',', s[en + 1..LineEnd(s, en + 1)]))
      else Token(s[st..en], [])
  }

  /** `preg_match('/^with([A-Z]\w+)$/', $conditionName)` on a name made of
      word characters: a related condition written as an element. */
  predicate IsWithName(name: string)
  {
    |name| >= 6 && name[..4] == "with" && IsUpper(name[4]) && AllWordChars(name[4..])
  }

  // ---------------------------------------------------------------------------
  // The handler's settings for rendering

  /** What `renderCondition` reads from the handler besides the query. */
  datatype Settings = Settings(not: bool, conditionOnly: bool, combineWith: Value)

  /** The option `key` of `$options`, `null` when it is not set. */
  function OptionValue(options: map<string, Value>, key: string): Value
  {
    if key in options then options[key] else Null
  }

  /** The settings `new ConditionsHandler($query, $token, $options)` takes
      from the options of `whereCondition`. */
  function OptionSettings(options: map<string, Value>): Settings
  {
    Settings(Truthy(OptionValue(options, "not")), Truthy(OptionValue(options, "returnsConditionOnly")),
             OptionValue(options, "combineWith"))
  }

  /** The token the query class holds, as `getRawCondition` compares it. */
  function Stored(w: World, q: Query): Option<string>
  {
    Some(w.tokenOf(q.queryClass))
  }

  // ---------------------------------------------------------------------------
  // What an element asks for

  /** What `processConditionElem` does with an element: keep it, replace it
      by a condition's definition, or call a `with…Condition` method. */
  datatype Action = Keep | Definition(v: Value) | WithCall(name: string, args: seq<Value>)

  /** The action for `elem`: a string naming an existing condition is that
      condition's definition for the arguments written after the name; a
      string naming a `with…` relation is a call of `with…Condition` with
      those arguments; anything else is kept. */
  function ElemAction(w: World, q: Query, token: string, elem: Value): Action
  {
    if !elem.Str? then Keep
    else
      var t := ParseToken(elem.s);
      if ExistsCondition(w, q.queryClass, t.name) then Definition(GetRawCondition(w, Stored(w, q), q, t.name, Strs(t.args), token))
      else if IsWithName(t.name) then WithCall(t.name + "Condition", Strs(t.args))
      else Keep
  }

  // ---------------------------------------------------------------------------
  // Single steps, between the recursive calls

  /** The render of a processed condition, once processing is done. */
  function RenderProcessed(q: Query, s: Settings, processed: Res<Value>): Res<Outcome>
  {
    match processed
    case Err(e) => Err(e)
    case Ok(p) => Render(q, s.not, s.conditionOnly, s.combineWith, p)
  }

  /** `if ($renderedQuery = …) return $renderedQuery; … return false;`:
      a falsy render counts as no condition. */
  function Found(rendered: Res<Outcome>): Res<Outcome>
  {
    match rendered
    case Err(e) => Err(e)
    case Ok(o) => Ok(if OutcomeTruthy(o) then o else NoCondition)
  }

  /** The link of a prepared relation to its finished sub-query. */
  function Correlated(b: Binding, finished: Res<Query>): Res<Value>
  {
    match finished
    case Err(e) => Err(e)
    case Ok(relation) => Ok(Correlation(b, relation))
  }

  /** The sub-query after one `$subQuery->$condition(...)` call through
      `__call`: a falsy result falls through to the next handler and fails
      as an unknown method; a returned query is the sub-query changed in place. */
  function AfterCall(sub: Query, condition: string, called: Res<Outcome>): Res<Query>
  {
    match called
    case Err(e) => Err(e)
    case Ok(NoCondition) => Err(UnknownMethod(condition))
    case Ok(QueryOut(q')) => Ok(q')
    case Ok(CondOut(_)) => Ok(sub)
  }

  /** The sub-query after `$subQuery->andWhereCondition($condition)`, whose
      result is not used. */
  function AfterRaw(sub: Query, handled: Res<Outcome>): Res<Query>
  {
    match handled
    case Err(e) => Err(e)
    case Ok(o) => Ok(if o.QueryOut? then o.q else sub)
  }

  /** What `$this->query->with…Condition(...)` puts in place of the element:
      the query it returns, or the processed condition; a falsy result falls
      through and fails as an unknown method. */
  function Expanded(name: string, called: Res<Outcome>): Res<Value>
  {
    match called
    case Err(e) => Err(e)
    case Ok(NoCondition) => Err(UnknownMethod(name))
    case Ok(QueryOut(q')) => Ok(Sub(q'))
    case Ok(CondOut(c)) => Ok(c)
  }

  // ---------------------------------------------------------------------------
  // The mutual recursion

  /** `handleConditionCall()` for a call of `name` with `args` on `q`. */
  function HandleCall(w: World, fuel: Fuel, q: Query, name: string, args: seq<Value>, token: string): Res<Outcome>
    decreases fuel, 4
  {
    match ParseName(name)
    case None => Ok(NoCondition)
    case Some(c) =>
      var ev := Evaluate(c.evaluation, args, c.not);
      if !ev.proceed then Ok(QueryOut(q))
      else
        var s := Settings(ev.not, c.conditionOnly, CombineValue(c.combineWith));
        Found(if c.related then RenderRelated(w, fuel, q, token, c.base, ev.args, s)
              else RenderDirect(w, fuel, q, token, c.base, ev.args, s))
  }

  /** `handleRawCondition($rawCondition)` with the handler built from `options`. */
  function HandleRaw(w: World, fuel: Fuel, q: Query, raw: Value, options: map<string, Value>, token: string): Res<Outcome>
    decreases fuel, 4
  {
    RenderProcessed(q, OptionSettings(options), ProcessCondition(w, fuel, q, token, raw))
  }

  /** `renderDirectCondition()`: `NoCondition` (null) when the query has no such condition. */
  function RenderDirect(w: World, fuel: Fuel, q: Query, token: string, base: string, args: seq<Value>, s: Settings): Res<Outcome>
    decreases fuel, 3
  {
    if !ExistsCondition(w, q.queryClass, base) then Ok(NoCondition)
    else RenderProcessed(q, s, ProcessCondition(w, fuel, q, token, GetRawCondition(w, Stored(w, q), q, base, args, token)))
  }

  /** `renderRelatedCondition()`: `NoCondition` (null) when no word prefix
      of the base names a getter of the query's model. */
  function RenderRelated(w: World, fuel: Fuel, q: Query, token: string, base: string, args: seq<Value>, s: Settings): Res<Outcome>
    decreases fuel, 3
  {
    match FirstRelation(WordsOf(base), w.modelMethods(q.modelClass))
    case None => Ok(NoCondition)
    case Some(split) =>
      match RelationBinding(w, q.modelClass, split.relationName)
      case Err(e) => Err(e)
      case Ok(b) =>
        RenderProcessed(q, s, Correlated(b, ApplyConditions(w, fuel, b.relation, split.conditionsWords, args)))
  }

  /** `applyConditionsToRelation($subQuery, $words)`: the conditions the
      words segment into, each called with the handler's arguments; without
      words, the first argument as a raw condition (`andWhereCondition`).
      Words that do not segment completely are ignored. */
  function ApplyConditions(w: World, fuel: Fuel, sub: Query, words: seq<string>, args: seq<Value>): Res<Query>
    decreases fuel, 2
  {
    if words != [] then
      match Segment(words, w.queryMethods(sub.queryClass))
      case None => Ok(sub)
      case Some(conditions) => ApplyEach(w, fuel, sub, conditions, args)
    else if args == [] then Ok(sub)
    else if fuel.Zero? then Err(OutOfFuel)
    else AfterRaw(sub, HandleRaw(w, fuel.rest, sub, args[0], map["combineWith" := Str("and")], w.tokenOf(sub.queryClass)))
  }

  /** The `foreach` over the segmented conditions, each called with the
      handler's arguments. */
  function ApplyEach(w: World, fuel: Fuel, sub: Query, conditions: seq<string>, args: seq<Value>): Res<Query>
    decreases fuel, 1, |conditions|
  {
    if conditions == [] then Ok(sub)
    else if fuel.Zero? then Err(OutOfFuel)
    else
      match AfterCall(sub, conditions[0], HandleCall(w, fuel.rest, sub, conditions[0], args, w.tokenOf(sub.queryClass)))
      case Err(e) => Err(e)
      case Ok(sub') => ApplyEach(w, fuel, sub', conditions[1..], args)
  }

  /** `processCondition($rawCondition)`: an array element by element under
      the same keys; anything else expanded until an expansion gives it back. */
  function ProcessCondition(w: World, fuel: Fuel, q: Query, token: string, raw: Value): (r: Res<Value>)
    ensures raw.Arr? && r.Ok? ==> (r.value.Arr? && |r.value.entries| == |raw.entries|
      && forall k :: 0 <= k < |raw.entries| ==> r.value.entries[k].key == raw.entries[k].key)
    decreases fuel, 2, raw, 1
  {
    if raw.Arr? then
      match ProcessFrom(w, fuel, q, token, raw, 0)
      case Err(e) => Err(e)
      case Ok(es) => Ok(Arr(es))
    else
      match ProcessElem(w, fuel, q, token, raw)
      case Err(e) => Err(e)
      case Ok(elem) =>
        if elem == raw then Ok(raw)
        else if fuel.Zero? then Err(OutOfFuel)
        else ProcessCondition(w, fuel.rest, q, token, elem)
  }

  /** The `array_map` of `processCondition` over the entries of `raw` from position `i` on. */
  function ProcessFrom(w: World, fuel: Fuel, q: Query, token: string, raw: Value, i: nat): (r: Res<seq<Entry>>)
    requires raw.Arr? && i <= |raw.entries|
    ensures r.Ok? ==> (|r.value| == |raw.entries| - i
      && forall k :: 0 <= k < |r.value| ==> r.value[k].key == raw.entries[i + k].key)
    decreases fuel, 2, raw, 0, |raw.entries| - i
  {
    if i == |raw.entries| then Ok([])
    else
      match ProcessCondition(w, fuel, q, token, raw.entries[i].val)
      case Err(e) => Err(e)
      case Ok(v) =>
        match ProcessFrom(w, fuel, q, token, raw, i + 1)
        case Err(e) => Err(e)
        case Ok(es) => Ok([Entry(raw.entries[i].key, v)] + es)
  }

  /** `processConditionElem($elem)`: an existing condition's definition, the
      result of a `with…Condition` call, or the element unchanged. */
  function ProcessElem(w: World, fuel: Fuel, q: Query, token: string, elem: Value): Res<Value>
    decreases fuel, 1
  {
    match ElemAction(w, q, token, elem)
    case Keep => Ok(elem)
    case Definition(v) => Ok(v)
    case WithCall(name, args) =>
      if fuel.Zero? then Err(OutOfFuel)
      else Expanded(name, HandleCall(w, fuel.rest, q, name, args, w.tokenOf(q.queryClass)))
  }
}
