/** The query side of the compiler: the `Conditions` trait a Yii query class
    uses. It names condition methods (`"condition" . ucfirst($name)`), says
    whether one exists, hands a condition's raw definition only to a caller
    holding the class's token, keeps that token, and provides the built-in
    primary-key condition `conditionElems`. */
module Conditions {
  import opened Php
  import opened Values

  // ---------------------------------------------------------------------------
  // Method names

  /** `methodFromConditionName($name)` */
  function MethodName(name: string): string
  {
    "condition" + UcFirst(name)
  }

  lemma {:induction false} LowerConcat(a: string, b: string)
    ensures Lower(a + b) == Lower(a) + Lower(b)
  {
  }

  lemma {:induction false} LowerUcFirst(s: string)
    ensures Lower(UcFirst(s)) == Lower(s)
  {
    if s != [] {
      assert ToLowerChar(ToUpperChar(s[0])) == ToLowerChar(s[0]);
      LowerConcat([ToUpperChar(s[0])], s[1..]);
      LowerConcat([s[0]], s[1..]);
      assert s == [s[0]] + s[1..];
    }
  }

  /** The method a condition name stands for, as PHP looks it up: the
      lower-cased name behind `condition`, whatever the case of its first letter. */
  lemma {:induction false} MethodNameLower(name: string)
    ensures Lower(MethodName(name)) == "condition" + Lower(name)
  {
    LowerConcat("condition", UcFirst(name));
    LowerUcFirst(name);
    assert Lower("condition") == "condition";
  }

  /** `method_exists($query, methodFromConditionName($name))` over the
      lower-cased method table of a query class. */
  predicate HasConditionMethod(methods: set<string>, name: string)
  {
    Lower(MethodName(name)) in methods
  }

  /** `existsCondition($name)` on a query of class `queryClass`. */
  predicate ExistsCondition(w: World, queryClass: string, name: string)
  {
    HasConditionMethod(w.queryMethods(queryClass), name)
  }

  /** A condition exists exactly when its class has a method `condition<name>`
      in any letter case. */
  lemma {:induction false} ExistsConditionIff(w: World, queryClass: string, name: string)
    ensures ExistsCondition(w, queryClass, name) <==> "condition" + Lower(name) in w.queryMethods(queryClass)
  {
    MethodNameLower(name);
  }

  /** Two names that differ only in letter case name the same condition. */
  lemma {:induction false} ExistsConditionCaseBlind(w: World, queryClass: string, a: string, b: string)
    requires Lower(a) == Lower(b)
    ensures ExistsCondition(w, queryClass, a) == ExistsCondition(w, queryClass, b)
  {
    MethodNameLower(a);
    MethodNameLower(b);
  }

  // ---------------------------------------------------------------------------
  // The token handshake

  /** A stored token PHP takes as set: neither null, `''` nor `'0'`. */
  predicate TruthyToken(stored: Option<string>)
  {
    stored.Some? && Truthy(Str(stored.value))
  }

  /** `getRawCondition($name, $args, $token)`, given the token the class
      holds (`stored`): nothing (null) for a wrong token, otherwise what the
      condition method returns for these arguments. */
  function GetRawCondition(w: World, stored: Option<string>, q: Query, name: string, args: seq<Value>, token: string): (r: Value)
    ensures stored != Some(token) ==> r == Null
    ensures stored == Some(token) ==>
      r == w.body(q.queryClass, q.modelClass, "condition" + Lower(name), args)
  {
    MethodNameLower(name);
    if stored != Some(token) then Null
    else w.body(q.queryClass, q.modelClass, Lower(MethodName(name)), args)
  }

  /** Without the class's token nobody reads a condition's definition,
      whatever name and arguments they pass. */
  lemma {:induction false} RawConditionNeedsToken(w: World, stored: Option<string>, q: Query, name: string, args: seq<Value>, token: string)
    requires stored != Some(token)
    ensures forall n: string, a: seq<Value> :: GetRawCondition(w, stored, q, n, a, token) == Null
  {
  }

  /** With the right token, names that differ only in letter case give the same definition. */
  lemma {:induction false} RawConditionCaseBlind(w: World, q: Query, a: string, b: string, args: seq<Value>, token: string)
    requires Lower(a) == Lower(b)
    ensures GetRawCondition(w, Some(token), q, a, args, token) == GetRawCondition(w, Some(token), q, b, args, token)
  {
  }

  /** `static::$conditionsHandlerToken` of one query class. */
  class TokenStore {
    var stored: Option<string>

    constructor ()
      ensures stored == None
    {
      stored := None;
    }

    /** `getConditionsHandlerToken()`; `generated` stands for what `mt_rand()`
        returns. A new token is made only when the stored one is falsy; a
        truthy one is returned unchanged, and is kept from then on. */
    method HandlerToken(generated: nat) returns (token: string)
      modifies this
      ensures TruthyToken(old(stored)) ==> token == old(stored).value && stored == old(stored)
      ensures !TruthyToken(old(stored)) ==> token == NatToString(generated)
      ensures stored == Some(token)
    {
      if !TruthyToken(stored) {
        var t := NatToString(generated);
        stored := Some(t);
      }
      token := stored.value;
    }
  }

  /** A generated token is falsy, and so is made again on the next call,
      exactly when `mt_rand()` gave 0. */
  lemma {:induction false} GeneratedTokenFalsy(generated: nat)
    ensures !TruthyToken(Some(NatToString(generated))) <==> generated == 0
  {
    if generated >= 10 {
      var r := NatToString(generated);
      assert r == NatToString(generated / 10) + [DigitChar(generated % 10)];
      assert |r| >= 2;
    } else if generated != 0 {
      assert NatToString(generated) == [DigitChar(generated)];
      assert DigitChar(generated) != '0';
    }
  }

  // ---------------------------------------------------------------------------
  // `conditionElems`

  /** Every value inside `v`, however deeply nested, in order: the
      flattening of arrays into one list. */
  function Flatten(v: Value): seq<Value>
    decreases v, 1
  {
    if v.Arr? then FlattenFrom(v, 0) else [v]
  }

  /** The flattening of the entries of array `v` from position `i` on. */
  function FlattenFrom(v: Value, i: nat): seq<Value>
    requires v.Arr? && i <= |v.entries|
    decreases v, 0, |v.entries| - i
  {
    if i == |v.entries| then [] else Flatten(v.entries[i].val) + FlattenFrom(v, i + 1)
  }

  /** A list as a PHP array with keys 0, 1, … */
  function List(vs: seq<Value>): (r: Value)
    ensures r.Arr? && |r.entries| == |vs|
    ensures forall k :: 0 <= k < |vs| ==> r.entries[k] == Entry(IntKey(k), vs[k])
  {
    Arr(seq(|vs|, k requires 0 <= k < |vs| => Entry(IntKey(k), vs[k])))
  }

  function Strs(ss: seq<string>): (r: seq<Value>)
    ensures |r| == |ss| && forall k :: 0 <= k < |ss| ==> r[k] == Str(ss[k])
  {
    seq(|ss|, k requires 0 <= k < |ss| => Str(ss[k]))
  }

  /** What one argument of `conditionElems` contributes: an array as it is,
      anything else split on its runs of non-digits. */
  function ElemsOfArg(arg: Value): Res<seq<Value>>
  {
    if arg.Arr? then Ok(Flatten(arg))
    else match ToPhpString(arg)
      case None => Err(NotConvertible)
      case Some(s) => Ok(Strs(SplitNonDigits(s)))
  }

  function ElemsOfArgs(args: seq<Value>): Res<seq<Value>>
  {
    if args == [] then Ok([])
    else match (ElemsOfArg(args[0]), ElemsOfArgs(args[1..]))
      case (Ok(a), Ok(b)) => Ok(a + b)
      case (Err(e), _) => Err(e)
      case (_, Err(e)) => Err(e)
  }

  /** `conditionElems(...$args)` on a query for `modelClass`: one entry, keyed
      `"<table>.<pk>"`, holding every argument's elements in one list. */
  function ConditionElems(w: World, modelClass: string, args: seq<Value>): (r: Res<Value>)
    ensures r.Ok? <==> ElemsOfArgs(args).Ok?
    ensures r.Ok? ==> (r.value.Arr? && |r.value.entries| == 1
      && r.value.entries[0].key == StrKey(w.tableOf(modelClass) + "." + w.pkOf(modelClass))
      && r.value.entries[0].val == List(ElemsOfArgs(args).value))
  {
    match ElemsOfArgs(args)
    case Ok(vs) => Ok(Single(w.tableOf(modelClass) + "." + w.pkOf(modelClass), List(vs)))
    case Err(e) => Err(e)
  }

  /** The text of a list of strings, joined. */
  function Texts(vs: seq<Value>): string
  {
    if vs == [] then "" else (if vs[0].Str? then vs[0].s else "") + Texts(vs[1..])
  }

  predicate AllDigitStrs(vs: seq<Value>)
  {
    forall k :: 0 <= k < |vs| ==> vs[k].Str? && AllDigits(vs[k].s)
  }

  predicate AllStrs(vs: seq<Value>)
  {
    forall k :: 0 <= k < |vs| ==> vs[k].Str?
  }

  function ArgsText(args: seq<Value>): string
    requires AllStrs(args)
  {
    if args == [] then "" else args[0].s + ArgsText(args[1..])
  }

  lemma {:induction false} TextsAppend(a: seq<Value>, b: seq<Value>)
    ensures Texts(a + b) == Texts(a) + Texts(b)
  {
    if a != [] {
      assert (a + b)[1..] == a[1..] + b;
      TextsAppend(a[1..], b);
    } else {
      assert a + b == b;
    }
  }

  lemma {:induction false} TextsStrs(ss: seq<string>)
    ensures Texts(Strs(ss)) == Concat(ss)
  {
    if ss != [] {
      assert Strs(ss)[1..] == Strs(ss[1..]);
      TextsStrs(ss[1..]);
    }
  }

  lemma {:induction false} DigitsOfAppend(a: string, b: string)
    ensures DigitsOf(a + b) == DigitsOf(a) + DigitsOf(b)
  {
    if a != [] {
      assert (a + b)[1..] == a[1..] + b;
      DigitsOfAppend(a[1..], b);
    } else {
      assert a + b == b;
    }
  }

  /** With string arguments (such as the pieces of `elems:3,4`), the primary-key
      condition lists digit strings only, and together they are exactly the
      digits of the arguments, in order. */
  lemma {:induction false} ElemsOfStringArgs(args: seq<Value>)
    requires AllStrs(args)
    ensures ElemsOfArgs(args).Ok?
    ensures AllDigitStrs(ElemsOfArgs(args).value)
    ensures Texts(ElemsOfArgs(args).value) == DigitsOf(ArgsText(args))
  {
    if args != [] {
      var pieces := SplitNonDigits(args[0].s);
      SplitNonDigitsPieces(args[0].s);
      assert ElemsOfArg(args[0]) == Ok(Strs(pieces));
      assert AllStrs(args[1..]) by {
        forall k | 0 <= k < |args| - 1 ensures args[1..][k].Str? { assert args[1..][k] == args[k + 1]; }
      }
      ElemsOfStringArgs(args[1..]);
      var rest := ElemsOfArgs(args[1..]).value;
      var all := Strs(pieces) + rest;
      assert ElemsOfArgs(args).value == all;
      forall k | 0 <= k < |all| ensures all[k].Str? && AllDigits(all[k].s) {
        if k >= |pieces| { assert all[k] == rest[k - |pieces|]; }
      }
      TextsAppend(Strs(pieces), rest);
      TextsStrs(pieces);
      DigitsOfAppend(args[0].s, ArgsText(args[1..]));
    }
  }

  // ---------------------------------------------------------------------------
  // Flattening and the list `conditionElems` builds

  predicate NoArrays(vs: seq<Value>)
  {
    forall k :: 0 <= k < |vs| ==> !vs[k].Arr?
  }

  lemma {:induction false} NoArraysAppend(a: seq<Value>, b: seq<Value>)
    requires NoArrays(a) && NoArrays(b)
    ensures NoArrays(a + b)
  {
    forall k | 0 <= k < |a + b| ensures !(a + b)[k].Arr? {
      if k < |a| { assert (a + b)[k] == a[k]; } else { assert (a + b)[k] == b[k - |a|]; }
    }
  }

  /** Flattening leaves no array behind. */
  lemma {:induction false} FlattenNoArrays(v: Value)
    ensures NoArrays(Flatten(v))
    decreases v, 1
  {
    if v.Arr? {
      FlattenFromNoArrays(v, 0);
    }
  }

  lemma {:induction false} FlattenFromNoArrays(v: Value, i: nat)
    requires v.Arr? && i <= |v.entries|
    ensures NoArrays(FlattenFrom(v, i))
    decreases v, 0, |v.entries| - i
  {
    if i < |v.entries| {
      FlattenNoArrays(v.entries[i].val);
      FlattenFromNoArrays(v, i + 1);
      NoArraysAppend(Flatten(v.entries[i].val), FlattenFrom(v, i + 1));
    }
  }

  lemma {:induction false} FlattenFromShift(a: seq<Entry>, b: seq<Entry>, j: nat)
    requires j <= |b|
    ensures FlattenFrom(Arr(a + b), |a| + j) == FlattenFrom(Arr(b), j)
    decreases |b| - j
  {
    if j < |b| {
      assert (a + b)[|a| + j] == b[j];
      FlattenFromShift(a, b, j + 1);
    }
  }

  lemma {:induction false} FlattenFromAppend(a: seq<Entry>, b: seq<Entry>, i: nat)
    requires i <= |a|
    ensures FlattenFrom(Arr(a + b), i) == FlattenFrom(Arr(a), i) + FlattenFrom(Arr(b), 0)
    decreases |a| - i
  {
    if i == |a| {
      FlattenFromShift(a, b, 0);
    } else {
      assert (a + b)[i] == a[i];
      FlattenFromAppend(a, b, i + 1);
      var x, y, z := Flatten(a[i].val), FlattenFrom(Arr(a), i + 1), FlattenFrom(Arr(b), 0);
      assert x + (y + z) == (x + y) + z;
    }
  }

  /** Flattening keeps the leaves in order: the flattening of two arrays
      side by side is the one flattening followed by the other. */
  lemma {:induction false} FlattenAppend(a: seq<Entry>, b: seq<Entry>)
    ensures Flatten(Arr(a + b)) == Flatten(Arr(a)) + Flatten(Arr(b))
  {
    FlattenFromAppend(a, b, 0);
  }

  lemma {:induction false} FlattenListFrom(vs: seq<Value>, i: nat)
    requires NoArrays(vs) && i <= |vs|
    ensures FlattenFrom(List(vs), i) == vs[i..]
    decreases |vs| - i
  {
    if i < |vs| {
      FlattenListFrom(vs, i + 1);
      assert List(vs).entries[i].val == vs[i];
      assert vs[i..] == [vs[i]] + vs[i + 1..];
    }
  }

  /** A list that is already flat flattens to itself. */
  lemma {:induction false} FlattenList(vs: seq<Value>)
    requires NoArrays(vs)
    ensures Flatten(List(vs)) == vs
  {
    FlattenListFrom(vs, 0);
  }

  /** Whatever the arguments, the list of elements is flat: arrays are
      flattened and strings split into strings. */
  lemma {:induction false} ElemsOfArgsFlat(args: seq<Value>)
    ensures ElemsOfArgs(args).Ok? ==> NoArrays(ElemsOfArgs(args).value)
  {
    if args != [] && ElemsOfArgs(args).Ok? {
      var first := ElemsOfArg(args[0]).value;
      if args[0].Arr? {
        FlattenNoArrays(args[0]);
      }
      ElemsOfArgsFlat(args[1..]);
      NoArraysAppend(first, ElemsOfArgs(args[1..]).value);
    }
  }

  /** Digit strings passed one by one are the elements, one each. */
  lemma {:induction false} ElemsOfDigitStrings(ids: seq<string>)
    requires forall k :: 0 <= k < |ids| ==> ids[k] != [] && AllDigits(ids[k])
    ensures ElemsOfArgs(Strs(ids)) == Ok(Strs(ids))
  {
    if ids != [] {
      SplitNonDigitsImplode(",", [ids[0]]);
      assert ElemsOfArg(Strs(ids)[0]) == Ok(Strs([ids[0]]));
      assert Strs(ids)[1..] == Strs(ids[1..]);
      ElemsOfDigitStrings(ids[1..]);
      assert Strs([ids[0]]) + Strs(ids[1..]) == Strs(ids);
    }
  }

  /** `conditionElems('3, 4')`: one string of ids joined by any non-digit
      separator lists exactly those ids under the primary key. */
  lemma {:induction false} ConditionElemsOfText(w: World, modelClass: string, glue: string, ids: seq<string>)
    requires glue != [] && NoDigits(glue)
    requires ids != [] && forall k :: 0 <= k < |ids| ==> ids[k] != [] && AllDigits(ids[k])
    ensures ConditionElems(w, modelClass, [Str(Implode(glue, ids))])
      == Ok(Single(w.tableOf(modelClass) + "." + w.pkOf(modelClass), List(Strs(ids))))
  {
    SplitNonDigitsImplode(glue, ids);
    var args := [Str(Implode(glue, ids))];
    assert ElemsOfArg(args[0]) == Ok(Strs(ids));
    assert args[1..] == [];
    assert Strs(ids) + [] == Strs(ids);
    assert ElemsOfArgs(args) == Ok(Strs(ids));
  }

  /** `conditionElems([...])`: an array argument lists its leaves, in order. */
  lemma {:induction false} ConditionElemsOfArray(w: World, modelClass: string, es: seq<Entry>)
    ensures ConditionElems(w, modelClass, [Arr(es)])
      == Ok(Single(w.tableOf(modelClass) + "." + w.pkOf(modelClass), List(Flatten(Arr(es)))))
  {
    var args := [Arr(es)];
    assert args[1..] == [];
    assert Flatten(Arr(es)) + [] == Flatten(Arr(es));
    assert ElemsOfArgs(args) == Ok(Flatten(Arr(es)));
  }

  /** Every query class using the trait has `conditionElems`: its method table
      lists it and, wherever it returns, it returns what `ConditionElems` says. */
  ghost predicate ElemsInstalled(w: World, queryClass: string, modelClass: string)
  {
    && "conditionelems" in w.queryMethods(queryClass)
    && forall args {:trigger w.body(queryClass, modelClass, "conditionelems", args)} ::
         ConditionElems(w, modelClass, args).Ok? ==>
         w.body(queryClass, modelClass, "conditionelems", args) == ConditionElems(w, modelClass, args).value
  }

  /** Where `conditionElems` is installed, `elems` is a condition, and its
      definition for digit-string arguments is the primary-key condition on them. */
  lemma {:induction false} ElemsExists(w: World, q: Query, ids: seq<string>)
    requires ElemsInstalled(w, q.queryClass, q.modelClass)
    requires forall k :: 0 <= k < |ids| ==> ids[k] != [] && AllDigits(ids[k])
    ensures ExistsCondition(w, q.queryClass, "elems") && "elems" != [] && AllWordChars("elems")
    ensures GetRawCondition(w, Some(w.tokenOf(q.queryClass)), q, "elems", Strs(ids), w.tokenOf(q.queryClass))
      == Single(w.tableOf(q.modelClass) + "." + w.pkOf(q.modelClass), List(Strs(ids)))
  {
    assert Lower("elems") == "elems";
    assert "condition" + Lower("elems") == "conditionelems";
    ExistsConditionIff(w, q.queryClass, "elems");
    ElemsOfDigitStrings(ids);
    assert ConditionElems(w, q.modelClass, Strs(ids)).Ok?;
  }
}
