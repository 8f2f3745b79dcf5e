/** The name grammar of a virtual condition call: the pattern
      ^(?:(?:(and|or)(Not)?|(not))([A-Z]\w+?)|([a-z]\w+?))(If|BasedOn)?(Condition)?$
    matched the way PCRE does, alternative by alternative, with the lazy base
    taking the shortest run after which the rest of the name is an evaluator
    and/or `Condition` suffix. As in PCRE, `$` also matches before one final
    newline. */
module Grammar {
  import opened Php
  import opened Values

  datatype Combinator = AndWith | OrWith
  datatype Evaluator = If | BasedOn

  /** The fields `parseConditionCall` fills in. */
  datatype CallSpec = CallSpec(
    combineWith: Combinator,
    not: bool,
    base: string,
    evaluation: Option<Evaluator>,
    conditionOnly: bool,
    related: bool)

  /** What `(If|BasedOn)?(Condition)?` captured. */
  datatype Tail = Tail(evaluation: Option<Evaluator>, conditionOnly: bool)

  /** Where the lazy base ended, and the tail read from there. */
  datatype Match = Match(end: nat, tail: Tail)

  function TailText(evaluation: Option<Evaluator>, conditionOnly: bool): string
  {
    (match evaluation
     case None => ""
     case Some(If) => "If"
     case Some(BasedOn) => "BasedOn")
    + (if conditionOnly then "Condition" else "")
  }

  /** `(If|BasedOn)?(Condition)?` matching all of `rest` (each reading has
      its own length, so the length picks the one literal to compare with). */
  function TailCore(rest: string): Option<Tail>
  {
    if |rest| == 0 then Some(Tail(None, false))
    else if |rest| == 2 then (if rest == "If" then Some(Tail(Some(If), false)) else None)
    else if |rest| == 7 then (if rest == "BasedOn" then Some(Tail(Some(BasedOn), false)) else None)
    else if |rest| == 9 then (if rest == "Condition" then Some(Tail(None, true)) else None)
    else if |rest| == 11 then (if rest == "IfCondition" then Some(Tail(Some(If), true)) else None)
    else if |rest| == 16 then (if rest == "BasedOnCondition" then Some(Tail(Some(BasedOn), true)) else None)
    else None
  }

  lemma {:induction false} TailCoreText(ev: Option<Evaluator>, co: bool)
    ensures TailCore(TailText(ev, co)) == Some(Tail(ev, co))
  {
  }

  lemma {:induction false} TailCoreSome(rest: string)
    requires TailCore(rest).Some?
    ensures rest == TailText(TailCore(rest).value.evaluation, TailCore(rest).value.conditionOnly)
    ensures '\n' !in rest
  {
  }

  /** `rest` without the one final newline that `$` may stand before. */
  function DropFinalNewline(rest: string): string
  {
    if rest != [] && rest[|rest| - 1] == '\n' then rest[..|rest| - 1] else rest
  }

  /** The suffix and the `$` anchor, tried at position `e` of `name` (no tail
      text contains a newline, so trying the tail on the whole rest first, as
      PCRE does, changes nothing). */
  function TailAt(name: string, e: nat): Option<Tail>
    requires e <= |name|
  {
    TailCore(DropFinalNewline(name[e..]))
  }

  /** The lazy `\w+?`: the first end position from `e` on at which the tail
      matches, scanning over word characters only. */
  function LazyEnd(name: string, e: nat): (r: Option<Match>)
    requires e <= |name|
    ensures r.Some? ==> e <= r.value.end <= |name|
    decreases |name| - e
  {
    match TailAt(name, e)
    case Some(t) => Some(Match(e, t))
    case None => if e < |name| && IsWordChar(name[e]) then LazyEnd(name, e + 1) else None
  }

  /** A found end is the first position over word characters where the tail matches. */
  lemma {:induction false} LazyEndFound(name: string, e: nat)
    requires e <= |name| && LazyEnd(name, e).Some?
    ensures var r := LazyEnd(name, e).value;
      && e <= r.end <= |name|
      && AllWordChars(name[e..r.end])
      && TailAt(name, r.end) == Some(r.tail)
      && forall j :: e <= j < r.end ==> TailAt(name, j).None?
    decreases |name| - e
  {
    if TailAt(name, e).None? {
      LazyEndFound(name, e + 1);
      var r := LazyEnd(name, e).value;
      assert name[e..r.end] == [name[e]] + name[e + 1..r.end];
    }
  }

  /** `[A-Z]\w+?` (when `upper`) or `[a-z]\w+?` starting at `q`, followed by the tail. */
  function BaseAt(name: string, q: nat, upper: bool): (r: Option<Match>)
    ensures r.Some? ==> q + 2 <= r.value.end <= |name|
  {
    if q + 2 <= |name| && (if upper then IsUpper(name[q]) else IsLower(name[q])) && IsWordChar(name[q + 1])
    then LazyEnd(name, q + 2)
    else None
  }

  function Build(name: string, q: nat, m: Match, comb: Combinator, not: bool): CallSpec
    requires q <= m.end <= |name|
  {
    var base := LcFirst(name[q..m.end]);
    CallSpec(comb, not, base, m.tail.evaluation, m.tail.conditionOnly,
             StartsWith(base, "with") || StartsWith(base, "With"))
  }

  /** First alternative after `and`/`or` (of length `p`): `(Not)?` is greedy,
      so the negated reading is tried first. */
  function Prefixed(name: string, p: nat, comb: Combinator): Option<CallSpec>
    requires p <= |name|
  {
    if StartsWith(name[p..], "Not") && BaseAt(name, p + 3, true).Some? then
      var m := BaseAt(name, p + 3, true).value;
      Some(Build(name, p + 3, m, comb, true))
    else if BaseAt(name, p, true).Some? then
      Some(Build(name, p, BaseAt(name, p, true).value, comb, false))
    else None
  }

  /** `parseConditionCall`: `None` when the name does not have the shape of a condition call. */
  function ParseName(name: string): Option<CallSpec>
  {
    var alt1 :=
      if StartsWith(name, "and") then Prefixed(name, 3, AndWith)
      else if StartsWith(name, "or") then Prefixed(name, 2, OrWith)
      else None;
    if alt1.Some? then alt1
    else if StartsWith(name, "not") && BaseAt(name, 3, true).Some? then
      Some(Build(name, 3, BaseAt(name, 3, true).value, AndWith, true))
    else match BaseAt(name, 0, false)
      case Some(m) => Some(Build(name, 0, m, AndWith, false))
      case None => None
  }

  // ---------------------------------------------------------------------------
  // What a parse means: the name is a prefix, the base and the tail.

  /** The modifiers a literal prefix of the name stands for. */
  predicate ValidPrefix(pre: string, c: CallSpec)
  {
    || (pre == "and" && c.combineWith == AndWith && !c.not)
    || (pre == "or" && c.combineWith == OrWith && !c.not)
    || (pre == "andNot" && c.combineWith == AndWith && c.not)
    || (pre == "orNot" && c.combineWith == OrWith && c.not)
    || (pre == "not" && c.combineWith == AndWith && c.not)
    || (pre == "" && c.combineWith == AndWith && !c.not)
  }

  /** The name spelled from a prefix and the parsed fields: after a prefix the
      base is written with its first letter upper-cased. */
  function Spelling(pre: string, c: CallSpec): string
  {
    pre + (if pre == "" then c.base else UcFirst(c.base)) + TailText(c.evaluation, c.conditionOnly)
  }

  /** No shorter base would have left a complete tail (the laziness of `\w+?`). */
  predicate Shortest(c: CallSpec)
  {
    forall k {:trigger TailCore(c.base[k..] + TailText(c.evaluation, c.conditionOnly))} ::
      2 <= k < |c.base| ==> TailCore(c.base[k..] + TailText(c.evaluation, c.conditionOnly)).None?
  }

  predicate RelatedFlag(c: CallSpec)
  {
    c.related == (StartsWith(c.base, "with") || StartsWith(c.base, "With"))
  }

  predicate WellFormedBase(c: CallSpec)
  {
    |c.base| >= 2 && IsLower(c.base[0]) && AllWordChars(c.base) && Shortest(c) && RelatedFlag(c)
  }
}

module GrammarProofs {
  import opened Php
  import opened Values
  import opened Grammar

  lemma {:induction false} TailTextStartsUpper(ev: Option<Evaluator>, co: bool)
    ensures var t := TailText(ev, co); t == "" || IsUpper(t[0])
    ensures '\n' !in TailText(ev, co)
  {
  }

  lemma {:induction false} PrefixAt(x: string, w: string, i: nat)
    requires StartsWith(x, w) && i < |w|
    ensures x[i] == w[i]
  {
    assert x[..|w|][i] == x[i];
  }

  /** A lower-case word read at the start of `s + t`, where `t` starts with
      an upper-case letter, lies entirely inside `s`. */
  lemma {:induction false} LowerPrefix(s: string, t: string, w: string)
    requires forall i :: 0 <= i < |w| ==> IsLower(w[i])
    requires t == "" || IsUpper(t[0])
    requires StartsWith(s + t, w)
    ensures StartsWith(s, w)
  {
    if |w| <= |s| {
      assert (s + t)[..|w|] == s[..|w|];
    } else if t != [] {
      PrefixAt(s + t, w, |s|);
      assert false;
    }
  }

  lemma {:induction false} LcFirstDrop(s: string, k: nat)
    requires 1 <= k <= |s|
    ensures LcFirst(s)[k..] == s[k..]
  {
  }

  lemma {:induction false} LcFirstUcFirst(s: string)
    requires s != [] && IsLower(s[0])
    ensures LcFirst(UcFirst(s)) == s && IsUpper(UcFirst(s)[0])
  {
  }

  lemma {:induction false} DropFinalNewlineAppend(x: string, y: string)
    requires y != [] || (x != [] && x[|x| - 1] != '\n')
    ensures DropFinalNewline(x + y) == if y == [] then x else x + DropFinalNewline(y)
  {
    if y == [] {
      assert x + y == x;
    } else if y[|y| - 1] == '\n' {
      assert (x + y)[..|x + y| - 1] == x + y[..|y| - 1];
    }
  }

  lemma {:induction false} DropFinalNewlineCases(rest: string, tt: string)
    requires DropFinalNewline(rest) == tt && '\n' !in tt
    ensures rest == tt || rest == tt + "\n"
  {
    if rest != [] && rest[|rest| - 1] == '\n' {
      assert rest == rest[..|rest| - 1] + "\n";
    }
  }

  lemma {:induction false} Assoc(a: string, b: string, c: string)
    ensures a + (b + c) == (a + b) + c
  {
  }

  lemma {:induction false} SliceSplit(s: string, i: nat, j: nat)
    requires i <= j <= |s|
    ensures s[i..] == s[i..j] + s[j..]
  {
  }

  /** Reading the tail at a later cut of the base: what follows is the rest
      of the base and the tail text. */
  lemma {:induction false} TailAfterCut(base: string, k: nat, rest: string, tt: string)
    requires 1 <= k < |base| && AllWordChars(base)
    requires DropFinalNewline(rest) == tt
    requires rest == [] ==> tt == []
    ensures DropFinalNewline(base[k..] + rest) == base[k..] + tt
  {
    assert IsWordChar(base[k..][|base[k..]| - 1]);
    DropFinalNewlineAppend(base[k..], rest);
    if rest == [] { assert base[k..] + tt == base[k..]; }
  }

  /** The pieces of a base matched by `BaseAt`: its end, its characters and
      the minimality of the lazy scan. */
  lemma {:induction false} BaseAtFacts(name: string, q: nat, upper: bool)
    requires BaseAt(name, q, upper).Some?
    ensures var e := BaseAt(name, q, upper).value.end;
      && q + 2 <= e <= |name|
      && (if upper then IsUpper(name[q]) else IsLower(name[q]))
      && AllWordChars(name[q + 1..e])
      && TailAt(name, e) == Some(BaseAt(name, q, upper).value.tail)
      && forall j :: q + 2 <= j < e ==> TailAt(name, j).None?
  {
    assert LazyEnd(name, q + 2) == BaseAt(name, q, upper);
    LazyEndFound(name, q + 2);
    WordCharsCons(name, q + 1, BaseAt(name, q, upper).value.end);
  }

  lemma {:induction false} WordCharsCons(s: string, i: nat, j: nat)
    requires i < j <= |s| && IsWordChar(s[i]) && AllWordChars(s[i + 1..j])
    ensures AllWordChars(s[i..j])
  {
    forall k | 0 <= k < j - i ensures IsWordChar(s[i..j][k]) {
      if k > 0 { assert s[i..j][k] == s[i + 1..j][k - 1]; }
    }
  }

  /** The base a successful `BaseAt` captured, first letter lower-cased, and its tail text. */
  function MatchedBase(name: string, q: nat, upper: bool): string
    requires BaseAt(name, q, upper).Some?
  {
    LcFirst(name[q..BaseAt(name, q, upper).value.end])
  }

  function MatchedTail(name: string, q: nat, upper: bool): string
    requires BaseAt(name, q, upper).Some?
  {
    var t := BaseAt(name, q, upper).value.tail;
    TailText(t.evaluation, t.conditionOnly)
  }

  lemma {:induction false} MatchedBaseChars(name: string, q: nat, upper: bool)
    requires BaseAt(name, q, upper).Some?
    ensures var base := MatchedBase(name, q, upper);
      |base| >= 2 && IsLower(base[0]) && AllWordChars(base)
  {
    BaseAtFacts(name, q, upper);
    var e := BaseAt(name, q, upper).value.end;
    var seg := name[q..e];
    var base := MatchedBase(name, q, upper);
    assert base == [ToLowerChar(seg[0])] + seg[1..];
    assert seg[0] == name[q] && seg[1..] == name[q + 1..e];
    forall i | 1 <= i < |base| ensures IsWordChar(base[i]) {
      assert base[i] == name[q + 1..e][i - 1];
    }
  }

  lemma {:induction false} MatchedSpelling(name: string, q: nat, upper: bool)
    requires BaseAt(name, q, upper).Some?
    ensures var base := MatchedBase(name, q, upper);
      var spelled := (if upper then UcFirst(base) else base) + MatchedTail(name, q, upper);
      name[q..] == spelled || name[q..] == spelled + "\n"
  {
    BaseAtFacts(name, q, upper);
    var m := BaseAt(name, q, upper).value;
    var e, t := m.end, m.tail;
    var seg := name[q..e];
    var base := MatchedBase(name, q, upper);
    var tt := MatchedTail(name, q, upper);
    var spelled := if upper then UcFirst(base) else base;
    if upper {
      UcFirstLcFirst(seg);
    }
    assert spelled == seg;
    var rest := name[e..];
    SliceSplit(name, q, e);
    TailCoreSome(DropFinalNewline(rest));
    TailTextStartsUpper(t.evaluation, t.conditionOnly);
    DropFinalNewlineCases(rest, tt);
    if rest != tt {
      Assoc(seg, tt, "\n");
    }
  }

  /** What follows a matched base reads as its tail text, up to one final newline. */
  lemma {:induction false} MatchedRest(name: string, q: nat, upper: bool)
    requires BaseAt(name, q, upper).Some?
    ensures var rest := name[BaseAt(name, q, upper).value.end..];
      var tt := MatchedTail(name, q, upper);
      DropFinalNewline(rest) == tt && (rest == [] ==> tt == [])
  {
    BaseAtFacts(name, q, upper);
    var m := BaseAt(name, q, upper).value;
    var rest := name[m.end..];
    TailCoreSome(DropFinalNewline(rest));
    DropFinalNewlineCases(rest, MatchedTail(name, q, upper));
  }

  lemma {:induction false} MatchedShortest(name: string, q: nat, upper: bool, k: nat)
    requires BaseAt(name, q, upper).Some?
    requires 2 <= k < |MatchedBase(name, q, upper)|
    ensures TailCore(MatchedBase(name, q, upper)[k..] + MatchedTail(name, q, upper)).None?
  {
    BaseAtFacts(name, q, upper);
    MatchedBaseChars(name, q, upper);
    MatchedRest(name, q, upper);
    var e := BaseAt(name, q, upper).value.end;
    var seg := name[q..e];
    var base := MatchedBase(name, q, upper);
    var rest := name[e..];
    var j := q + k;
    assert TailAt(name, j).None?;
    LcFirstDrop(seg, k);
    assert base[k..] == name[j..e];
    SliceSplit(name, j, e);
    TailAfterCut(base, k, rest, MatchedTail(name, q, upper));
  }

  /** What one successful base-and-tail match contributes to the parse: the
      rest of the name is the base (re-capitalised when it was matched by
      `[A-Z]`) and the tail, and the base is well formed. */
  lemma {:induction false} BuildSound(name: string, q: nat, upper: bool, comb: Combinator, not: bool)
    requires BaseAt(name, q, upper).Some?
    ensures var c := Build(name, q, BaseAt(name, q, upper).value, comb, not);
      && WellFormedBase(c)
      && var spelled := (if upper then UcFirst(c.base) else c.base) + TailText(c.evaluation, c.conditionOnly);
         (name[q..] == spelled || name[q..] == spelled + "\n")
  {
    var c := Build(name, q, BaseAt(name, q, upper).value, comb, not);
    assert c.base == MatchedBase(name, q, upper);
    assert TailText(c.evaluation, c.conditionOnly) == MatchedTail(name, q, upper);
    MatchedBaseChars(name, q, upper);
    MatchedSpelling(name, q, upper);
    forall k | 2 <= k < |c.base| ensures TailCore(c.base[k..] + TailText(c.evaluation, c.conditionOnly)).None? {
      MatchedShortest(name, q, upper, k);
    }
  }

  // The converse direction is argued on plain strings: `base` followed by a
  // tail text `tt` that `TailCore` reads as `t`.

  predicate BaseShape(base: string, tt: string)
  {
    && |base| >= 2 && IsLower(base[0]) && AllWordChars(base)
    && forall k {:trigger TailCore(base[k..] + tt)} :: 2 <= k < |base| ==> TailCore(base[k..] + tt).None?
  }

  predicate TailShape(tt: string, t: Tail)
  {
    TailCore(tt) == Some(t) && '\n' !in tt && (tt == "" || IsUpper(tt[0]))
  }

  predicate Spelled(name: string, q: nat, upper: bool, base: string, tt: string)
  {
    q <= |name| && name[q..] == (if upper then UcFirst(base) else base) + tt
  }

  /** A well-formed call and its tail text, as the plain-string lemmas take them. */
  predicate Shaped(c: CallSpec, tt: string)
  {
    BaseShape(c.base, tt) && TailShape(tt, Tail(c.evaluation, c.conditionOnly)) && RelatedFlag(c)
  }

  lemma {:induction false} WellFormedShaped(c: CallSpec)
    requires WellFormedBase(c)
    ensures Shaped(c, TailText(c.evaluation, c.conditionOnly))
  {
    TailCoreText(c.evaluation, c.conditionOnly);
    TailTextStartsUpper(c.evaluation, c.conditionOnly);
  }

  lemma {:induction false} SpelledPieces(name: string, q: nat, upper: bool, base: string, tt: string)
    requires Spelled(name, q, upper, base, tt) && base != [] && IsLower(base[0])
    ensures var e := q + |base|;
      && e <= |name|
      && name[q..e] == (if upper then UcFirst(base) else base)
      && name[e..] == tt
      && LcFirst(name[q..e]) == base
  {
    var seg := if upper then UcFirst(base) else base;
    LcFirstSpelled(base, upper);
    SliceOfSuffix(name, q, seg, tt);
    assert name[q..q + |base|] == seg;
  }

  /** Lower-casing the first letter of a base as spelled gives the base back. */
  lemma {:induction false} LcFirstSpelled(base: string, upper: bool)
    requires base != [] && IsLower(base[0])
    ensures var seg := if upper then UcFirst(base) else base;
      |seg| == |base| && LcFirst(seg) == base
  {
    if upper {
      LcFirstUcFirst(base);
    } else {
      assert LcFirst(base) == base;
    }
  }

  /** A suffix spelled as two pieces gives both pieces back as slices. */
  lemma {:induction false} SliceOfSuffix(name: string, q: nat, seg: string, tt: string)
    requires q <= |name| && name[q..] == seg + tt
    ensures q + |seg| <= |name| && name[q..q + |seg|] == seg && name[q + |seg|..] == tt
  {
    assert name[q..][..|seg|] == seg;
    assert name[q..][|seg|..] == tt;
  }

  lemma {:induction false} SpelledTailAt(name: string, q: nat, upper: bool, base: string, tt: string, t: Tail)
    requires Spelled(name, q, upper, base, tt) && base != [] && IsLower(base[0]) && TailShape(tt, t)
    ensures q + |base| <= |name|
    ensures TailAt(name, q + |base|) == Some(t)
  {
    SpelledPieces(name, q, upper, base, tt);
    if tt != [] {
      assert tt[|tt| - 1] in tt;
    }
  }

  lemma {:induction false} SpelledNoEarlierTail(name: string, q: nat, upper: bool, base: string, tt: string, t: Tail, j: nat)
    requires Spelled(name, q, upper, base, tt) && BaseShape(base, tt) && TailShape(tt, t)
    requires q + 2 <= j < q + |base|
    ensures TailAt(name, j).None?
  {
    SpelledPieces(name, q, upper, base, tt);
    var e := q + |base|;
    var k := j - q;
    var seg := name[q..e];
    LcFirstDrop(seg, k);
    assert seg[k..] == name[j..e];
    SliceSplit(name, j, e);
    assert name[j..] == base[k..] + tt;
    TailAfterCut(base, k, tt, tt);
    if tt != [] {
      assert tt[|tt| - 1] in tt;
    }
  }

  lemma {:induction false} SpelledChars(name: string, q: nat, upper: bool, base: string, tt: string)
    requires Spelled(name, q, upper, base, tt) && BaseShape(base, tt)
    ensures q + 2 <= |name|
    ensures (if upper then IsUpper(name[q]) else IsLower(name[q])) && IsWordChar(name[q + 1])
    ensures AllWordChars(name[q + 2..q + |base|])
  {
    SpelledPieces(name, q, upper, base, tt);
    LcFirstUcFirst(base);
    var e := q + |base|;
    assert name[q] == name[q..e][0] && name[q + 1] == name[q..e][1];
    assert name[q + 2..e] == base[2..];
  }

  /** The lazy scan stops at the first position where the tail matches. */
  lemma {:induction false} LazyEndAt(name: string, s: nat, e: nat, t: Tail)
    requires s <= e <= |name| && AllWordChars(name[s..e])
    requires TailAt(name, e) == Some(t)
    requires forall j :: s <= j < e ==> TailAt(name, j).None?
    ensures LazyEnd(name, s) == Some(Match(e, t))
    decreases e - s
  {
    if s < e {
      assert name[s..e][0] == name[s];
      assert name[s + 1..e] == name[s..e][1..];
      LazyEndAt(name, s + 1, e, t);
    }
  }

  /** `BaseAt` finds the base ending at `e` when the characters fit and the
      tail matches first at `e`. */
  lemma {:induction false} BaseAtOf(name: string, q: nat, upper: bool, e: nat, t: Tail)
    requires q + 2 <= e <= |name|
    requires (if upper then IsUpper(name[q]) else IsLower(name[q])) && IsWordChar(name[q + 1])
    requires AllWordChars(name[q + 2..e]) && TailAt(name, e) == Some(t)
    requires forall j :: q + 2 <= j < e ==> TailAt(name, j).None?
    ensures BaseAt(name, q, upper) == Some(Match(e, t))
  {
    LazyEndAt(name, q + 2, e, t);
  }

  /** A spelled base and tail are found by `BaseAt`. */
  lemma {:induction false} BaseAtSpelled(name: string, q: nat, upper: bool, base: string, tt: string, t: Tail)
    requires Spelled(name, q, upper, base, tt) && BaseShape(base, tt) && TailShape(tt, t)
    ensures q + |base| <= |name|
    ensures BaseAt(name, q, upper) == Some(Match(q + |base|, t))
  {
    var e := q + |base|;
    SpelledChars(name, q, upper, base, tt);
    SpelledTailAt(name, q, upper, base, tt, t);
    forall j | q + 2 <= j < e ensures TailAt(name, j).None? {
      SpelledNoEarlierTail(name, q, upper, base, tt, t, j);
    }
    BaseAtOf(name, q, upper, e, t);
  }

  lemma {:induction false} BuildFields(name: string, q: nat, m: Match, c: CallSpec)
    requires q <= m.end <= |name| && LcFirst(name[q..m.end]) == c.base
    requires m.tail == Tail(c.evaluation, c.conditionOnly) && RelatedFlag(c)
    ensures Build(name, q, m, c.combineWith, c.not) == c
  {
  }

  /** The fields `Build` fills in from a spelled base and tail are those spelled. */
  lemma {:induction false} BuildSpelled(name: string, q: nat, upper: bool, c: CallSpec, tt: string)
    requires Spelled(name, q, upper, c.base, tt) && c.base != [] && IsLower(c.base[0]) && RelatedFlag(c)
    ensures q + |c.base| <= |name|
    ensures Build(name, q, Match(q + |c.base|, Tail(c.evaluation, c.conditionOnly)), c.combineWith, c.not) == c
  {
    SpelledPieces(name, q, upper, c.base, tt);
    BuildFields(name, q, Match(q + |c.base|, Tail(c.evaluation, c.conditionOnly)), c);
  }

  /** The converse: a name whose rest from `q` is a well-formed base and a tail
      is matched there with exactly that base and tail. */
  lemma {:induction false} BuildComplete(name: string, q: nat, upper: bool, c: CallSpec, tt: string)
    requires Spelled(name, q, upper, c.base, tt) && Shaped(c, tt)
    ensures BaseAt(name, q, upper) == Some(Match(q + |c.base|, Tail(c.evaluation, c.conditionOnly)))
    ensures Build(name, q, BaseAt(name, q, upper).value, c.combineWith, c.not) == c
  {
    BaseAtSpelled(name, q, upper, c.base, tt, Tail(c.evaluation, c.conditionOnly));
    BuildSpelled(name, q, upper, c, tt);
  }

  /** Which alternative of the pattern matched: the literal prefix before the
      base, where the base starts, and whether it starts upper-case. */
  lemma {:induction false} ParseCase(name: string) returns (pre: string, upper: bool)
    requires ParseName(name).Some?
    ensures |pre| <= |name| && name[..|pre|] == pre && upper == (pre != "")
    ensures BaseAt(name, |pre|, upper).Some?
    ensures var c := ParseName(name).value;
      && c == Build(name, |pre|, BaseAt(name, |pre|, upper).value, c.combineWith, c.not)
      && ValidPrefix(pre, c)
  {
    if StartsWith(name, "and") && Prefixed(name, 3, AndWith).Some? {
      if StartsWith(name[3..], "Not") && BaseAt(name, 6, true).Some? {
        pre, upper := "andNot", true;
        assert name[..6] == name[..3] + name[3..][..3];
      } else {
        pre, upper := "and", true;
      }
    } else if !StartsWith(name, "and") && StartsWith(name, "or") && Prefixed(name, 2, OrWith).Some? {
      if StartsWith(name[2..], "Not") && BaseAt(name, 5, true).Some? {
        pre, upper := "orNot", true;
        assert name[..5] == name[..2] + name[2..][..3];
      } else {
        pre, upper := "or", true;
      }
    } else if StartsWith(name, "not") && BaseAt(name, 3, true).Some? {
      pre, upper := "not", true;
    } else {
      pre, upper := "", false;
    }
  }

  /** Soundness of the parse: a name that parses is a literal prefix that
      fixes the combinator and the negation, then the base (first letter
      upper-cased after a prefix), then the evaluator and `Condition` suffix
      (and possibly the one newline `$` tolerates); the base is the shortest
      possible and the related flag says whether it starts with `with`. */
  lemma {:induction false} ParseSound(name: string)
    requires ParseName(name).Some?
    ensures var c := ParseName(name).value;
      && WellFormedBase(c)
      && exists pre :: ValidPrefix(pre, c) && (name == Spelling(pre, c) || name == Spelling(pre, c) + "\n")
  {
    var c := ParseName(name).value;
    var pre, upper := ParseCase(name);
    BuildSound(name, |pre|, upper, c.combineWith, c.not);
    PrefixSpelling(name, pre, c);
  }

  /** The name is its prefix followed by what was matched after it. */
  lemma {:induction false} PrefixSpelling(name: string, pre: string, c: CallSpec)
    requires |pre| <= |name| && name[..|pre|] == pre
    requires var spelled := (if pre != "" then UcFirst(c.base) else c.base) + TailText(c.evaluation, c.conditionOnly);
      name[|pre|..] == spelled || name[|pre|..] == spelled + "\n"
    ensures name == Spelling(pre, c) || name == Spelling(pre, c) + "\n"
  {
    var q := |pre|;
    var spelled := (if pre != "" then UcFirst(c.base) else c.base) + TailText(c.evaluation, c.conditionOnly);
    assert name == pre + name[q..];
    Assoc(pre, if pre != "" then UcFirst(c.base) else c.base, TailText(c.evaluation, c.conditionOnly));
    assert pre + spelled == Spelling(pre, c);
    if name[q..] != spelled {
      Assoc(pre, spelled, "\n");
    }
  }

  /** The alternatives of `ParseName`, one at a time. */
  lemma {:induction false} ParseNameAnd(name: string, c: CallSpec)
    requires StartsWith(name, "and") && Prefixed(name, 3, AndWith) == Some(c)
    ensures ParseName(name) == Some(c)
  {
  }

  lemma {:induction false} ParseNameOr(name: string, c: CallSpec)
    requires !StartsWith(name, "and") && StartsWith(name, "or") && Prefixed(name, 2, OrWith) == Some(c)
    ensures ParseName(name) == Some(c)
  {
  }

  lemma {:induction false} ParseNameNot(name: string)
    requires !StartsWith(name, "and") && !StartsWith(name, "or")
    requires StartsWith(name, "not") && BaseAt(name, 3, true).Some?
    ensures ParseName(name) == Some(Build(name, 3, BaseAt(name, 3, true).value, AndWith, true))
  {
  }

  /** An upper-case letter at position `i`. */
  predicate UpperAt(s: string, i: nat)
  {
    i < |s| && IsUpper(s[i])
  }

  /** An upper-case letter at position `i` with at least one character after
      it: the start of a base `[A-Z]\w+?` can match there. */
  predicate BaseStartAt(s: string, i: nat)
  {
    UpperAt(s, i) && i + 2 <= |s|
  }

  /** The name reads as a prefix followed by a base: `and`, `or` or `not`
      directly followed by an upper-case letter and at least one more character. */
  predicate ReadsAsPrefixed(name: string)
  {
    || (StartsWith(name, "and") && BaseStartAt(name, 3))
    || (StartsWith(name, "or") && BaseStartAt(name, 2))
    || (StartsWith(name, "not") && BaseStartAt(name, 3))
  }

  /** After `and`/`or`, a lower-case letter, a lone last letter or the end
      matches neither alternative. */
  lemma {:induction false} NoPrefixed(name: string, p: nat, comb: Combinator)
    requires p <= |name| && !BaseStartAt(name, p)
    ensures Prefixed(name, p, comb).None?
  {
    assert p + 3 <= |name| ==> name[p..][..3][0] == name[p];
  }

  lemma {:induction false} ParseNameBare(name: string)
    requires !ReadsAsPrefixed(name)
    requires BaseAt(name, 0, false).Some?
    ensures ParseName(name) == Some(Build(name, 0, BaseAt(name, 0, false).value, AndWith, false))
  {
    if StartsWith(name, "and") {
      NoPrefixed(name, 3, AndWith);
    } else if StartsWith(name, "or") {
      NoPrefixed(name, 2, OrWith);
    }
  }

  lemma {:induction false} UpperN(x: char)
    requires IsLower(x) && ToUpperChar(x) == 'N'
    ensures x == 'n'
  {
  }

  /** After a prefix, an upper-cased base that does not start with `not`
      does not start with `Not` either. */
  lemma {:induction false} UpperNotPrefix(base: string, tt: string)
    requires base != [] && IsLower(base[0]) && (tt == "" || IsUpper(tt[0]))
    requires StartsWith(UcFirst(base) + tt, "Not")
    ensures StartsWith(base, "not")
  {
    var x := UcFirst(base) + tt;
    assert x[0] == x[..3][0] == 'N';
    UpperN(base[0]);
    assert x[1..] == base[1..] + tt;
    assert x[1..][..2] == x[..3][1..];
    LowerPrefix(base[1..], tt, "ot");
    assert base[..3] == [base[0]] + base[1..][..2];
  }

  /** `and`/`or` followed directly by the base, where the base does not read
      as `Not` and an upper-case letter. */
  lemma {:induction false} PrefixedPlain(name: string, p: nat, c: CallSpec, tt: string)
    requires Spelled(name, p, true, c.base, tt) && Shaped(c, tt) && !c.not
    requires !StartsWith(name[p..], "Not") || !BaseStartAt(name, p + 3)
    ensures Prefixed(name, p, c.combineWith) == Some(c)
  {
    BuildComplete(name, p, true, c, tt);
  }

  /** `andNot`/`orNot` followed by the base. */
  lemma {:induction false} PrefixedNegated(name: string, p: nat, c: CallSpec, tt: string)
    requires p + 3 <= |name| && Spelled(name, p + 3, true, c.base, tt) && Shaped(c, tt) && c.not
    requires name[p..p + 3] == "Not"
    ensures Prefixed(name, p, c.combineWith) == Some(c)
  {
    assert name[p..][..3] == name[p..p + 3];
    BuildComplete(name, p + 3, true, c, tt);
  }

  /** The name spelled after a prefix: the prefix, then the upper-cased base and the tail. */
  lemma {:induction false} SpelledAfter(pre: string, c: CallSpec)
    requires pre != ""
    ensures var name := Spelling(pre, c);
      && |pre| <= |name|
      && name[..|pre|] == pre
      && Spelled(name, |pre|, true, c.base, TailText(c.evaluation, c.conditionOnly))
  {
    var name := Spelling(pre, c);
    var uc := UcFirst(c.base);
    var tt := TailText(c.evaluation, c.conditionOnly);
    assert name == pre + (uc + tt);
  }




  /** Without a prefix, the name is the base followed by the tail text. */
  lemma {:induction false} BareSpelling(c: CallSpec)
    ensures Spelling("", c) == c.base + TailText(c.evaluation, c.conditionOnly)
  {
    assert "" + c.base == c.base;
  }

  /** The base match of a bare spelling builds the call back. */
  lemma {:induction false} BareSpelledBuild(c: CallSpec)
    requires c.combineWith == AndWith && !c.not && WellFormedBase(c)
    ensures var name := Spelling("", c);
      && BaseAt(name, 0, false).Some?
      && Build(name, 0, BaseAt(name, 0, false).value, AndWith, false) == c
  {
    var name := Spelling("", c);
    var tt := TailText(c.evaluation, c.conditionOnly);
    BareSpelled(c);
    WellFormedShaped(c);
    BuildComplete(name, 0, false, c, tt);
  }

  lemma {:induction false} BareSpelled(c: CallSpec)
    ensures Spelled(Spelling("", c), 0, false, c.base, TailText(c.evaluation, c.conditionOnly))
  {
    var name := Spelling("", c);
    assert name[0..] == name;
  }

  lemma {:induction false} ParseSpelledBare(c: CallSpec)
    requires c.combineWith == AndWith && !c.not && WellFormedBase(c)
    requires !ReadsAsPrefixed(Spelling("", c))
    ensures ParseName(Spelling("", c)) == Some(c)
  {
    BareSpelledBuild(c);
    ParseNameBare(Spelling("", c));
  }

  /** After `and`/`or`, the upper-cased base does not read as `Not`. */
  lemma {:induction false} PlainAfterPrefix(name: string, p: nat, base: string, tt: string)
    requires Spelled(name, p, true, base, tt) && base != [] && IsLower(base[0]) && (tt == "" || IsUpper(tt[0]))
    requires !StartsWith(base, "not")
    ensures !StartsWith(name[p..], "Not")
  {
    if StartsWith(name[p..], "Not") {
      UpperNotPrefix(base, tt);
    }
  }

  lemma {:induction false} ParseSpelledAnd(c: CallSpec)
    requires c.combineWith == AndWith && !c.not && WellFormedBase(c)
    requires !(StartsWith(c.base, "not") && BaseStartAt(Spelling("and", c), 6))
    ensures ParseName(Spelling("and", c)) == Some(c)
  {
    var name := Spelling("and", c);
    var tt := TailText(c.evaluation, c.conditionOnly);
    SpelledAfter("and", c);
    WellFormedShaped(c);
    if !StartsWith(c.base, "not") {
      PlainAfterPrefix(name, 3, c.base, tt);
    }
    PrefixedPlain(name, 3, c, tt);
    ParseNameAnd(name, c);
  }

  lemma {:induction false} ParseSpelledOr(c: CallSpec)
    requires c.combineWith == OrWith && !c.not && WellFormedBase(c)
    requires !(StartsWith(c.base, "not") && BaseStartAt(Spelling("or", c), 5))
    ensures ParseName(Spelling("or", c)) == Some(c)
  {
    var name := Spelling("or", c);
    var tt := TailText(c.evaluation, c.conditionOnly);
    SpelledAfter("or", c);
    WellFormedShaped(c);
    if !StartsWith(c.base, "not") {
      PlainAfterPrefix(name, 2, c.base, tt);
    }
    PrefixedPlain(name, 2, c, tt);
    assert name[1] == name[..2][1] == 'r';
    ParseNameOr(name, c);
  }

  /** The name after `Not` in `andNot`/`orNot`. */
  lemma {:induction false} NegatedAfter(name: string, p: nat, base: string, tt: string)
    requires p + 3 <= |name| && name[..p + 3][p..] == "Not"
    requires Spelled(name, p + 3, true, base, tt)
    ensures name[p..p + 3] == "Not"
  {
    assert name[p..p + 3] == name[..p + 3][p..];
  }

  lemma {:induction false} ParseSpelledAndNot(c: CallSpec)
    requires c.combineWith == AndWith && c.not && WellFormedBase(c)
    ensures ParseName(Spelling("andNot", c)) == Some(c)
  {
    var name := Spelling("andNot", c);
    var tt := TailText(c.evaluation, c.conditionOnly);
    SpelledAfter("andNot", c);
    WellFormedShaped(c);
    NegatedAfter(name, 3, c.base, tt);
    assert name[..3] == name[..6][..3] == "and";
    PrefixedNegated(name, 3, c, tt);
    ParseNameAnd(name, c);
  }

  lemma {:induction false} ParseSpelledOrNot(c: CallSpec)
    requires c.combineWith == OrWith && c.not && WellFormedBase(c)
    ensures ParseName(Spelling("orNot", c)) == Some(c)
  {
    var name := Spelling("orNot", c);
    var tt := TailText(c.evaluation, c.conditionOnly);
    OrNotSpellingPrefix(c);
    WellFormedShaped(c);
    PrefixedNegated(name, 2, c, tt);
    ParseNameOr(name, c);
  }

  /** A name spelled after `orNot` starts with `or`, not with `and`, and has
      `Not` right after the `or`. */
  lemma {:induction false} OrNotSpellingPrefix(c: CallSpec)
    ensures var name := Spelling("orNot", c);
      && StartsWith(name, "or") && !StartsWith(name, "and")
      && 5 <= |name| && name[2..5] == "Not"
      && Spelled(name, 5, true, c.base, TailText(c.evaluation, c.conditionOnly))
  {
    var name := Spelling("orNot", c);
    SpelledAfter("orNot", c);
    NegatedAfter(name, 2, c.base, TailText(c.evaluation, c.conditionOnly));
    assert name[..2] == name[..5][..2] == "or";
    assert name[1] == name[..2][1] == 'r';
  }

  lemma {:induction false} ParseSpelledNot(c: CallSpec)
    requires c.combineWith == AndWith && c.not && WellFormedBase(c)
    ensures ParseName(Spelling("not", c)) == Some(c)
  {
    var name := Spelling("not", c);
    var tt := TailText(c.evaluation, c.conditionOnly);
    NotSpellingPrefix(c);
    WellFormedShaped(c);
    BuildComplete(name, 3, true, c, tt);
    ParseNameNot(name);
  }

  /** A name spelled after `not` starts with `not` and with neither `and` nor `or`. */
  lemma {:induction false} NotSpellingPrefix(c: CallSpec)
    ensures var name := Spelling("not", c);
      && StartsWith(name, "not") && !StartsWith(name, "and") && !StartsWith(name, "or")
      && Spelled(name, 3, true, c.base, TailText(c.evaluation, c.conditionOnly))
  {
    var name := Spelling("not", c);
    SpelledAfter("not", c);
    assert name[0] == name[..3][0] == 'n';
    assert name[1] == name[..3][1] == 'o';
  }

  /** Round trip: spelling a well-formed call with a prefix and parsing it
      gives the same fields back. The only spellings left out are those PCRE
      reads another way, where `[A-Z]\w+?` can start right after a prefix: a
      bare name that is `and`, `or` or `not` followed by an upper-case letter
      and more (`andNotes` is `and` + `notes`), and after a plain `and`/`or`
      a base `not…` whose fourth letter is upper-cased and followed by more.
      `orders`, `notified`, `andNotified`, `andX` and `andNotX` all round-trip. */
  lemma {:induction false} ParseSpelled(pre: string, c: CallSpec)
    requires ValidPrefix(pre, c) && WellFormedBase(c)
    requires pre == "" ==> !ReadsAsPrefixed(Spelling(pre, c))
    requires pre == "and" || pre == "or" ==> !(StartsWith(c.base, "not") && BaseStartAt(Spelling(pre, c), |pre| + 3))
    ensures ParseName(Spelling(pre, c)) == Some(c)
  {
    if pre == "" { ParseSpelledBare(c); }
    else if pre == "and" { ParseSpelledAnd(c); }
    else if pre == "or" { ParseSpelledOr(c); }
    else if pre == "andNot" { ParseSpelledAndNot(c); }
    else if pre == "orNot" { ParseSpelledOrNot(c); }
    else { ParseSpelledNot(c); }
  }

  /** A bare name whose upper-case letter after `and` is its last character
      reads back as spelled: `[A-Z]\w+?` needs a second character. */
  lemma {:induction false} ShortBareRoundTrip()
    ensures ParseName("andX") == Some(CallSpec(AndWith, false, "andX", None, false, false))
  {
    var c := CallSpec(AndWith, false, "andX", None, false, false);
    assert TailText(None, false) == "";
    assert "andX"[2..] + "" == "dX" && "andX"[3..] + "" == "X";
    assert TailCore("dX").None? && TailCore("X").None?;
    assert Spelling("", c) == "andX";
    assert !BaseStartAt("andX", 3);
    ParseSpelled("", c);
  }

  /** So does a base `notX` after `and`. */
  lemma {:induction false} ShortNegatedRoundTrip()
    ensures ParseName("andNotX") == Some(CallSpec(AndWith, false, "notX", None, false, false))
  {
    var c := CallSpec(AndWith, false, "notX", None, false, false);
    assert TailText(None, false) == "";
    assert "notX"[2..] + "" == "tX" && "notX"[3..] + "" == "X";
    assert TailCore("tX").None? && TailCore("X").None?;
    assert UcFirst("notX") == "NotX";
    assert Spelling("and", c) == "andNotX";
    assert !BaseStartAt("andNotX", 6);
    ParseSpelled("and", c);
  }
}
