/** What the expander guarantees: the fuel bound only ever cuts a
    computation short, `processCondition` stops at a fixed point and keeps
    the shape of arrays, elements that name nothing pass through untouched,
    and `name:arg1,arg2` elements are read back exactly. */
module ExpanderProofs {
  import opened Php
  import opened Values
  import opened Grammar
  import opened GrammarProofs
  import opened Conditions
  import opened RelationWords
  import opened Relations
  import opened Rendering
  import opened Expander

  /** A result that did not run out of fuel. */
  predicate Settled<T>(r: Res<T>)
  {
    r.Ok? || r.error != OutOfFuel
  }

  // ---------------------------------------------------------------------------
  // Fuel only cuts short: a settled result stays the same with one more unit,
  // and so with any amount more.

  lemma {:induction false} HandleCallMono(w: World, fuel: Fuel, q: Query, name: string, args: seq<Value>, token: string)
    requires Settled(HandleCall(w, fuel, q, name, args, token))
    ensures HandleCall(w, Succ(fuel), q, name, args, token) == HandleCall(w, fuel, q, name, args, token)
    decreases fuel, 4
  {
    match ParseName(name)
    case None =>
    case Some(c) =>
      var ev := Evaluate(c.evaluation, args, c.not);
      if ev.proceed {
        var s := Settings(ev.not, c.conditionOnly, CombineValue(c.combineWith));
        if c.related {
          RenderRelatedMono(w, fuel, q, token, c.base, ev.args, s);
        } else {
          RenderDirectMono(w, fuel, q, token, c.base, ev.args, s);
        }
      }
  }

  lemma {:induction false} HandleRawMono(w: World, fuel: Fuel, q: Query, raw: Value, options: map<string, Value>, token: string)
    requires Settled(HandleRaw(w, fuel, q, raw, options, token))
    ensures HandleRaw(w, Succ(fuel), q, raw, options, token) == HandleRaw(w, fuel, q, raw, options, token)
    decreases fuel, 4
  {
    ProcessConditionMono(w, fuel, q, token, raw);
  }

  lemma {:induction false} RenderDirectMono(w: World, fuel: Fuel, q: Query, token: string, base: string, args: seq<Value>, s: Settings)
    requires Settled(RenderDirect(w, fuel, q, token, base, args, s))
    ensures RenderDirect(w, Succ(fuel), q, token, base, args, s) == RenderDirect(w, fuel, q, token, base, args, s)
    decreases fuel, 3
  {
    if ExistsCondition(w, q.queryClass, base) {
      ProcessConditionMono(w, fuel, q, token, GetRawCondition(w, Stored(w, q), q, base, args, token));
    }
  }

  lemma {:induction false} RenderRelatedMono(w: World, fuel: Fuel, q: Query, token: string, base: string, args: seq<Value>, s: Settings)
    requires Settled(RenderRelated(w, fuel, q, token, base, args, s))
    ensures RenderRelated(w, Succ(fuel), q, token, base, args, s) == RenderRelated(w, fuel, q, token, base, args, s)
    decreases fuel, 3
  {
    match FirstRelation(WordsOf(base), w.modelMethods(q.modelClass))
    case None =>
    case Some(split) =>
      match RelationBinding(w, q.modelClass, split.relationName)
      case Err(_) =>
      case Ok(b) => ApplyConditionsMono(w, fuel, b.relation, split.conditionsWords, args);
  }

  lemma {:induction false} ApplyConditionsMono(w: World, fuel: Fuel, sub: Query, words: seq<string>, args: seq<Value>)
    requires Settled(ApplyConditions(w, fuel, sub, words, args))
    ensures ApplyConditions(w, Succ(fuel), sub, words, args) == ApplyConditions(w, fuel, sub, words, args)
    decreases fuel, 2
  {
    if words != [] {
      match Segment(words, w.queryMethods(sub.queryClass))
      case None =>
      case Some(conditions) => ApplyEachMono(w, fuel, sub, conditions, args);
    } else if args != [] {
      HandleRawMono(w, fuel.rest, sub, args[0], map["combineWith" := Str("and")], w.tokenOf(sub.queryClass));
    }
  }

  lemma {:induction false} ApplyEachMono(w: World, fuel: Fuel, sub: Query, conditions: seq<string>, args: seq<Value>)
    requires Settled(ApplyEach(w, fuel, sub, conditions, args))
    ensures ApplyEach(w, Succ(fuel), sub, conditions, args) == ApplyEach(w, fuel, sub, conditions, args)
    decreases fuel, 1, |conditions|
  {
    if conditions != [] {
      var token := w.tokenOf(sub.queryClass);
      HandleCallMono(w, fuel.rest, sub, conditions[0], args, token);
      match AfterCall(sub, conditions[0], HandleCall(w, fuel.rest, sub, conditions[0], args, token))
      case Err(_) =>
      case Ok(sub') => ApplyEachMono(w, fuel, sub', conditions[1..], args);
    }
  }

  lemma {:induction false} ProcessConditionMono(w: World, fuel: Fuel, q: Query, token: string, raw: Value)
    requires Settled(ProcessCondition(w, fuel, q, token, raw))
    ensures ProcessCondition(w, Succ(fuel), q, token, raw) == ProcessCondition(w, fuel, q, token, raw)
    decreases fuel, 2, raw, 1
  {
    if raw.Arr? {
      ProcessFromMono(w, fuel, q, token, raw, 0);
    } else {
      ProcessElemMono(w, fuel, q, token, raw);
      match ProcessElem(w, fuel, q, token, raw)
      case Err(_) =>
      case Ok(elem) =>
        if elem != raw {
          ProcessConditionMono(w, fuel.rest, q, token, elem);
        }
    }
  }

  lemma {:induction false} ProcessFromMono(w: World, fuel: Fuel, q: Query, token: string, raw: Value, i: nat)
    requires raw.Arr? && i <= |raw.entries|
    requires Settled(ProcessFrom(w, fuel, q, token, raw, i))
    ensures ProcessFrom(w, Succ(fuel), q, token, raw, i) == ProcessFrom(w, fuel, q, token, raw, i)
    decreases fuel, 2, raw, 0, |raw.entries| - i
  {
    if i < |raw.entries| {
      ProcessConditionMono(w, fuel, q, token, raw.entries[i].val);
      if ProcessCondition(w, fuel, q, token, raw.entries[i].val).Ok? {
        ProcessFromMono(w, fuel, q, token, raw, i + 1);
      }
    }
  }

  lemma {:induction false} ProcessElemMono(w: World, fuel: Fuel, q: Query, token: string, elem: Value)
    requires Settled(ProcessElem(w, fuel, q, token, elem))
    ensures ProcessElem(w, Succ(fuel), q, token, elem) == ProcessElem(w, fuel, q, token, elem)
    decreases fuel, 1
  {
    match ElemAction(w, q, token, elem)
    case Keep =>
    case Definition(_) =>
    case WithCall(name, args) =>
      HandleCallMono(w, fuel.rest, q, name, args, w.tokenOf(q.queryClass));
  }

  /** `more` is `fuel` with some units added. */
  predicate AtLeast(more: Fuel, fuel: Fuel)
    decreases more
  {
    more == fuel || (more.Succ? && AtLeast(more.rest, fuel))
  }

  /** More fuel never changes a processed condition or an error other than
      running out. */
  lemma {:induction false} ProcessConditionMore(w: World, fuel: Fuel, more: Fuel, q: Query, token: string, raw: Value)
    requires AtLeast(more, fuel) && Settled(ProcessCondition(w, fuel, q, token, raw))
    ensures ProcessCondition(w, more, q, token, raw) == ProcessCondition(w, fuel, q, token, raw)
    decreases more
  {
    if more != fuel {
      ProcessConditionMore(w, fuel, more.rest, q, token, raw);
      ProcessConditionMono(w, more.rest, q, token, raw);
    }
  }

  /** The same for a whole condition call. */
  lemma {:induction false} HandleCallMore(w: World, fuel: Fuel, more: Fuel, q: Query, name: string, args: seq<Value>, token: string)
    requires AtLeast(more, fuel) && Settled(HandleCall(w, fuel, q, name, args, token))
    ensures HandleCall(w, more, q, name, args, token) == HandleCall(w, fuel, q, name, args, token)
    decreases more
  {
    if more != fuel {
      HandleCallMore(w, fuel, more.rest, q, name, args, token);
      HandleCallMono(w, more.rest, q, name, args, token);
    }
  }

  // ---------------------------------------------------------------------------
  // The fixed point

  /** `processCondition` stops where expansion gives the element back, so
      processing its result once more changes nothing. */
  lemma {:induction false} ProcessIdempotent(w: World, fuel: Fuel, q: Query, token: string, raw: Value)
    requires ProcessCondition(w, fuel, q, token, raw).Ok?
    ensures var r := ProcessCondition(w, fuel, q, token, raw).value;
      ProcessCondition(w, fuel, q, token, r) == Ok(r)
    decreases fuel, raw, 1
  {
    if raw.Arr? {
      var es := ProcessFrom(w, fuel, q, token, raw, 0).value;
      assert Arr(es).entries[0..] == es;
      ProcessFromIdempotent(w, fuel, q, token, raw, 0, Arr(es), 0);
    } else {
      var elem := ProcessElem(w, fuel, q, token, raw).value;
      if elem != raw {
        ProcessIdempotent(w, fuel.rest, q, token, elem);
        var r := ProcessCondition(w, fuel.rest, q, token, elem).value;
        ProcessConditionMono(w, fuel.rest, q, token, r);
      }
    }
  }

  /** The processed entries of `raw` from `i` on, standing in `v` from `j`
      on, are processed into themselves. */
  lemma {:induction false} ProcessFromIdempotent(w: World, fuel: Fuel, q: Query, token: string, raw: Value, i: nat, v: Value, j: nat)
    requires raw.Arr? && i <= |raw.entries| && ProcessFrom(w, fuel, q, token, raw, i).Ok?
    requires v.Arr? && j <= |v.entries| && v.entries[j..] == ProcessFrom(w, fuel, q, token, raw, i).value
    ensures ProcessFrom(w, fuel, q, token, v, j) == Ok(v.entries[j..])
    decreases fuel, raw, 0, |raw.entries| - i
  {
    if i < |raw.entries| {
      var es := ProcessFrom(w, fuel, q, token, raw, i).value;
      ProcessIdempotent(w, fuel, q, token, raw.entries[i].val);
      assert v.entries[j] == es[0];
      assert v.entries[j + 1..] == es[1..];
      ProcessFromIdempotent(w, fuel, q, token, raw, i + 1, v, j + 1);
      assert v.entries[j..] == [v.entries[j]] + v.entries[j + 1..];
    }
  }

  // ---------------------------------------------------------------------------
  // Elements that name nothing

  /** An element expansion leaves alone: not a string, or a string whose
      name is neither a condition of the query nor of the `with…` form. */
  predicate InertElem(w: World, q: Query, v: Value)
  {
    !v.Str? || (var t := ParseToken(v.s); !ExistsCondition(w, q.queryClass, t.name) && !IsWithName(t.name))
  }

  /** Every element of `v`, at any depth of arrays, is inert. */
  predicate Inert(w: World, q: Query, v: Value)
    decreases v, 1
  {
    if v.Arr? then InertFrom(w, q, v, 0) else InertElem(w, q, v)
  }

  predicate InertFrom(w: World, q: Query, v: Value, i: nat)
    requires v.Arr? && i <= |v.entries|
    decreases v, 0, |v.entries| - i
  {
    i == |v.entries| || (Inert(w, q, v.entries[i].val) && InertFrom(w, q, v, i + 1))
  }

  /** A condition made only of inert elements is already processed, with any fuel. */
  lemma {:induction false} ProcessInert(w: World, fuel: Fuel, q: Query, token: string, v: Value)
    requires Inert(w, q, v)
    ensures ProcessCondition(w, fuel, q, token, v) == Ok(v)
    decreases v, 1
  {
    if v.Arr? {
      ProcessFromInert(w, fuel, q, token, v, 0);
      assert v.entries[0..] == v.entries;
    }
  }

  lemma {:induction false} ProcessFromInert(w: World, fuel: Fuel, q: Query, token: string, v: Value, i: nat)
    requires v.Arr? && i <= |v.entries| && InertFrom(w, q, v, i)
    ensures ProcessFrom(w, fuel, q, token, v, i) == Ok(v.entries[i..])
    decreases v, 0, |v.entries| - i
  {
    if i < |v.entries| {
      var e := v.entries[i];
      ProcessInert(w, fuel, q, token, e.val);
      ProcessFromInert(w, fuel, q, token, v, i + 1);
      assert Entry(e.key, e.val) == e;
      assert ProcessFrom(w, fuel, q, token, v, i) == Ok([Entry(e.key, e.val)] + v.entries[i + 1..]);
      assert v.entries[i..] == [e] + v.entries[i + 1..];
    } else {
      assert v.entries[i..] == [];
      assert ProcessFrom(w, fuel, q, token, v, i) == Ok([]);
    }
  }

  // ---------------------------------------------------------------------------
  // Reading `name:arg1,arg2`

  lemma {:induction false} WordEndAt(s: string, i: nat, k: nat)
    requires i <= k <= |s| && (forall j :: i <= j < k ==> IsWordChar(s[j]))
    requires k == |s| || !IsWordChar(s[k])
    ensures WordEnd(s, i) == k
    decreases k - i
  {
    if i < k {
      WordEndAt(s, i + 1, k);
    }
  }

  lemma {:induction false} LineEndAll(s: string, i: nat)
    requires i <= |s| && forall j :: i <= j < |s| ==> s[j] != '\n'
    ensures LineEnd(s, i) == |s|
    decreases |s| - i
  {
    if i < |s| {
      LineEndAll(s, i + 1);
    }
  }

  lemma {:induction false} JoinWithout(sep: char, parts: seq<string>, c: char)
    requires parts != [] && c != sep && forall k :: 0 <= k < |parts| ==> c !in parts[k]
    ensures c !in JoinWith(sep, parts)
    decreases |parts|
  {
    if |parts| > 1 {
      assert forall k :: 0 <= k < |parts| - 1 ==> c !in parts[1..][k] by {
        forall k | 0 <= k < |parts| - 1 ensures c !in parts[1..][k] { assert parts[1..][k] == parts[k + 1]; }
      }
      JoinWithout(sep, parts[1..], c);
    }
  }

  /** Arguments written after a condition name, separated by commas, are read
      back as they were written, and a bare name has none. */
  lemma {:induction false} ParseTokenRoundTrip(name: string, args: seq<string>)
    requires name != [] && AllWordChars(name)
    requires args != [] && forall k :: 0 <= k < |args| ==> ',' !in args[k] && '\n' !in args[k]
    ensures ParseToken(name + ":" + JoinWith(',', args)) == Token(name, args)
    ensures ParseToken(name) == Token(name, [])
  {
    var joined := JoinWith(',', args);
    var s := name + ":" + joined;
    assert s[0] == name[0];
    assert WordStart(s, 0) == 0;
    assert s[|name|] == ':';
    WordEndAt(s, 0, |name|);
    assert s[|name| + 1..] == joined;
    JoinWithout(',', args, '\n');
    LineEndAll(s, |name| + 1);
    assert s[|name| + 1..LineEnd(s, |name| + 1)] == joined;
    JoinExplode(',', args);
    assert s[0..|name|] == name;
    assert ParseToken(s) == Token(s[0..|name|], Explode(',', s[|name| + 1..LineEnd(s, |name| + 1)]));
    assert WordStart(name, 0) == 0;
    WordEndAt(name, 0, |name|);
  }

  /** A direct condition written as `name:a,b` inside a condition expands to
      that condition's definition for the arguments `'a'`, `'b'`. */
  lemma {:induction false} ProcessElemDirect(w: World, fuel: Fuel, q: Query, token: string, name: string, args: seq<string>)
    requires name != [] && AllWordChars(name) && ExistsCondition(w, q.queryClass, name)
    requires args != [] && forall k :: 0 <= k < |args| ==> ',' !in args[k] && '\n' !in args[k]
    ensures ProcessElem(w, fuel, q, token, Str(name + ":" + JoinWith(',', args)))
      == Ok(GetRawCondition(w, Stored(w, q), q, name, Strs(args), token))
  {
    ParseTokenRoundTrip(name, args);
  }

  lemma {:induction false} ElemsText(joined: string)
    ensures "elems:" + joined == "elems" + ":" + joined
  {
  }

  /** `elems:3,4` inside a condition, read with the class's own token,
      expands to the primary-key condition on exactly those ids. */
  lemma {:induction false} ProcessElemIds(w: World, fuel: Fuel, q: Query, ids: seq<string>)
    requires ElemsInstalled(w, q.queryClass, q.modelClass)
    requires ids != [] && forall k :: 0 <= k < |ids| ==> ids[k] != [] && AllDigits(ids[k])
    ensures ProcessElem(w, fuel, q, w.tokenOf(q.queryClass), Str("elems:" + JoinWith(',', ids)))
      == Ok(Single(w.tableOf(q.modelClass) + "." + w.pkOf(q.modelClass), List(Strs(ids))))
  {
    var token := w.tokenOf(q.queryClass);
    DigitsHaveNoSeparators(ids);
    ElemsExists(w, q, ids);
    assert Stored(w, q) == Some(token);
    ElemsText(JoinWith(',', ids));
    ProcessElemDirect(w, fuel, q, token, "elems", ids);
  }

  // ---------------------------------------------------------------------------
  // `with…` elements are related condition calls

  lemma {:induction false} LazyEndReaches(name: string, e: nat, j: nat)
    requires e <= j <= |name| && (forall k :: e <= k < j ==> IsWordChar(name[k]))
    requires TailAt(name, j).Some?
    ensures LazyEnd(name, e).Some? && LazyEnd(name, e).value.end <= j
    decreases j - e
  {
    if TailAt(name, e).None? {
      LazyEndReaches(name, e + 1, j);
    }
  }

  /** No tail text starts with a lower-case letter. */
  lemma {:induction false} TailCoreLower(r: string)
    requires r != [] && IsLower(r[0])
    ensures TailCore(r).None?
  {
    assert "If"[0] == 'I' && "BasedOn"[0] == 'B' && "Condition"[0] == 'C';
    assert "IfCondition"[0] == 'I' && "BasedOnCondition"[0] == 'B';
  }

  /** A tail never starts with a lower-case letter. */
  lemma {:induction false} NoTailAtLower(name: string, e: nat)
    requires e < |name| && IsLower(name[e]) && name[|name| - 1] != '\n'
    ensures TailAt(name, e).None?
  {
    assert DropFinalNewline(name[e..]) == name[e..];
    assert name[e..][0] == name[e];
    TailCoreLower(name[e..]);
  }

  /** In `with<Name>Condition` the lazy base runs past `with` and stops no
      later than `Condition`. */
  lemma {:induction false} WithBaseEnd(n: string)
    requires IsWithName(n)
    ensures var s := n + "Condition";
      && BaseAt(s, 0, false).Some? && 4 <= BaseAt(s, 0, false).value.end <= |n|
  {
    var s := n + "Condition";
    assert s[..4] == n[..4] == "with";
    assert s[0] == 'w' && s[1] == 'i' && s[2] == 't' && s[3] == 'h';
    assert s[|n|..] == "Condition";
    forall k | 2 <= k < |n| ensures IsWordChar(s[k]) {
      if k >= 4 { assert s[k] == n[4..][k - 4]; }
    }
    assert TailAt(s, |n|) == Some(Tail(None, true));
    LazyEndReaches(s, 2, |n|);
    assert BaseAt(s, 0, false) == LazyEnd(s, 2);
    LazyEndFound(s, 2);
    NoTailAtLower(s, 2);
    NoTailAtLower(s, 3);
  }

  /** A tail read at the end of the base of `with<Name>Condition` includes
      `Condition`, since the name ends with it. */
  lemma {:induction false} WithTailConditionOnly(n: string, e: nat, t: Tail)
    requires e <= |n| && TailAt(n + "Condition", e) == Some(t)
    ensures t.conditionOnly
  {
    var s := n + "Condition";
    assert s[|s| - 1] == 'n' && s[|s| - 2] == 'o';
    assert DropFinalNewline(s[e..]) == s[e..];
    TailCoreSome(s[e..]);
    var tt := s[e..];
    assert tt == TailText(t.evaluation, t.conditionOnly);
    assert tt[|tt| - 1] == 'n' && tt[|tt| - 2] == 'o';
  }

  /** A name starting with `w` has none of the prefixes `and`, `or`, `not`. */
  lemma {:induction false} NoModifierPrefix(s: string)
    requires s != [] && s[0] == 'w'
    ensures !StartsWith(s, "and") && !StartsWith(s, "or") && !StartsWith(s, "not")
  {
    if |s| >= 3 {
      assert s[..3][0] == 'w';
    }
    if |s| >= 2 {
      assert s[..2][0] == 'w';
    }
  }

  /** The call an element `with<Name>` makes, `with<Name>Condition`, parses as
      an unnegated related call that returns its condition only. */
  lemma {:induction false} WithConditionParses(n: string)
    requires IsWithName(n)
    ensures var c := ParseName(n + "Condition");
      && c.Some? && c.value.related && c.value.conditionOnly
      && c.value.combineWith == AndWith && !c.value.not
  {
    var s := n + "Condition";
    assert s[..4] == n[..4] == "with";
    NoModifierPrefix(s);
    WithBaseEnd(n);
    var m := BaseAt(s, 0, false).value;
    BaseAtFacts(s, 0, false);
    WithTailConditionOnly(n, m.end, m.tail);
    ParseNameBare(s);
    assert s[0..m.end][..4] == "with";
  }
}
