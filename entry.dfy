/** The entry points of the `Conditions` trait: `__callfromConditions`, which
    the query's `__call` stack tries for a method it does not have, and
    `whereCondition` with its `and`/`or` shorthands. Each fetches the class's
    token (making it on first use) and hands the call to a handler; a falsy
    result falls through to the next `__call` handler in the stack. */
module ConditionsEntry {
  import Php
  import opened Values
  import opened Conditions
  import opened Rendering
  import opened Expander
  import opened Handler

  /** What an entry point returns: the handler's result, or the
      `nextCallMethod()` marker that passes the call on. */
  datatype CallResult = Handled(o: Outcome) | NextCall

  /** `$handlerResult ?: $this->nextCallMethod()`. */
  function OrNext(handled: Res<Outcome>): (r: Res<CallResult>)
    ensures handled.Err? <==> r.Err?
    ensures handled.Ok? ==> (r.value == NextCall <==> !OutcomeTruthy(handled.value))
    ensures handled.Ok? && OutcomeTruthy(handled.value) ==> r.value == Handled(handled.value)
  {
    match handled
    case Err(e) => Err(e)
    case Ok(o) => Ok(if OutcomeTruthy(o) then Handled(o) else NextCall)
  }

  /** The world once the query class `queryClass` holds `token`; every other
      class keeps its own. */
  function HoldingToken(w: World, queryClass: string, token: string): (r: World)
    ensures r.tokenOf(queryClass) == token
    ensures forall c :: c != queryClass ==> r.tokenOf(c) == w.tokenOf(c)
    ensures r.(tokenOf := w.tokenOf) == w
  {
    w.(tokenOf := c => if c == queryClass then token else w.tokenOf(c))
  }

  /** The options `andWhereCondition` (`combine` = `"and"`) and
      `orWhereCondition` (`combine` = `"or"`) pass on: `combineWith`
      overwritten, every other option as given. */
  function CombinedOptions(options: map<string, Value>, combine: string): (r: map<string, Value>)
    ensures r.Keys == options.Keys + {"combineWith"}
    ensures OptionValue(r, "combineWith") == Str(combine)
    ensures forall k :: k != "combineWith" ==> OptionValue(r, k) == OptionValue(options, k)
  {
    options["combineWith" := Str(combine)]
  }

  /** `__callfromConditions($name, $args)` on a query `q` whose class keeps
      its token in `store`; `generated` stands for `mt_rand()`. */
  method CallFromConditions(store: TokenStore, generated: nat, w: World, fuel: Fuel, q: Query, name: string, args: seq<Value>)
    returns (r: Res<CallResult>)
    modifies store
    ensures store.stored.Some?
    ensures TruthyToken(old(store.stored)) ==> store.stored == old(store.stored)
    ensures !TruthyToken(old(store.stored)) ==> store.stored == Some(Php.NatToString(generated))
    ensures var token := store.stored.value;
      r == OrNext(Expander.HandleCall(HoldingToken(w, q.queryClass, token), fuel, q, name, args, token))
  {
    var token := store.HandlerToken(generated);
    var handled := ConditionsHandler.HandleCall(HoldingToken(w, q.queryClass, token), fuel, q, name, args, token);
    r := OrNext(handled);
  }

  /** `whereCondition($condition, $options)`. */
  method WhereCondition(store: TokenStore, generated: nat, w: World, fuel: Fuel, q: Query, condition: Value,
                        options: map<string, Value>)
    returns (r: Res<CallResult>)
    modifies store
    ensures store.stored.Some?
    ensures TruthyToken(old(store.stored)) ==> store.stored == old(store.stored)
    ensures !TruthyToken(old(store.stored)) ==> store.stored == Some(Php.NatToString(generated))
    ensures var token := store.stored.value;
      r == OrNext(HandleRaw(HoldingToken(w, q.queryClass, token), fuel, q, condition, options, token))
  {
    var token := store.HandlerToken(generated);
    var handled := ConditionsHandler.HandleCondition(HoldingToken(w, q.queryClass, token), fuel, q, condition, options, token);
    r := OrNext(handled);
  }

  /** `andWhereCondition($condition, $options)`. */
  method AndWhereCondition(store: TokenStore, generated: nat, w: World, fuel: Fuel, q: Query, condition: Value,
                           options: map<string, Value>)
    returns (r: Res<CallResult>)
    modifies store
    ensures store.stored.Some?
    ensures TruthyToken(old(store.stored)) ==> store.stored == old(store.stored)
    ensures !TruthyToken(old(store.stored)) ==> store.stored == Some(Php.NatToString(generated))
    ensures var token := store.stored.value;
      r == OrNext(HandleRaw(HoldingToken(w, q.queryClass, token), fuel, q, condition, CombinedOptions(options, "and"), token))
  {
    var opts := options;
    opts := opts["combineWith" := Str("and")];
    r := WhereCondition(store, generated, w, fuel, q, condition, opts);
  }

  /** `orWhereCondition($condition, $options)`. */
  method OrWhereCondition(store: TokenStore, generated: nat, w: World, fuel: Fuel, q: Query, condition: Value,
                          options: map<string, Value>)
    returns (r: Res<CallResult>)
    modifies store
    ensures store.stored.Some?
    ensures TruthyToken(old(store.stored)) ==> store.stored == old(store.stored)
    ensures !TruthyToken(old(store.stored)) ==> store.stored == Some(Php.NatToString(generated))
    ensures var token := store.stored.value;
      r == OrNext(HandleRaw(HoldingToken(w, q.queryClass, token), fuel, q, condition, CombinedOptions(options, "or"), token))
  {
    var opts := options;
    opts := opts["combineWith" := Str("or")];
    r := WhereCondition(store, generated, w, fuel, q, condition, opts);
  }
}
