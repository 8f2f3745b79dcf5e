/** The word-level parts of a relation condition such as
    `withAuthorActiveCondition`: splitting the base after `with` into its
    camel-case words, finding the shortest word prefix that names a relation
    getter of the model, and cutting the remaining words greedily into
    condition names of the related query. */
module RelationWords {
  import opened Php
  import opened Values
  import Conditions

  // ---------------------------------------------------------------------------
  // Splitting into words

  /** `preg_replace('/([A-Z])/', '|$1', text)`: a bar before every upper-case letter. */
  function Mark(text: string): string
  {
    if text == [] then ""
    else (if IsUpper(text[0]) then "|" + [text[0]] else [text[0]]) + Mark(text[1..])
  }

  /** `array_filter($pieces)`: drops the falsy strings `''` and `'0'`, keeping order. */
  function DropFalsy(pieces: seq<string>): (r: seq<string>)
    ensures |r| <= |pieces|
    ensures forall k :: 0 <= k < |r| ==> r[k] != "" && r[k] != "0"
  {
    if pieces == [] then []
    else (if pieces[0] != "" && pieces[0] != "0" then [pieces[0]] else []) + DropFalsy(pieces[1..])
  }

  /** The words of a related base condition (lines 387-389): what follows
      `with`/`With`, cut before each upper-case letter, empty pieces dropped.
      A base not starting so has no words. */
  function WordsOf(base: string): seq<string>
  {
    if |base| >= 4 && (base[..4] == "with" || base[..4] == "With") then
      DropFalsy(Explode('|', Mark(base[4..])))
    else []
  }

  predicate StartsUpper(s: string)
  {
    s != [] && IsUpper(s[0])
  }

  /** Words after the first begin with an upper-case letter. */
  predicate CamelWords(ws: seq<string>)
  {
    forall k :: 1 <= k < |ws| ==> StartsUpper(ws[k])
  }

  predicate NoUpper(s: string)
  {
    forall k :: 0 <= k < |s| ==> !IsUpper(s[k])
  }

  lemma {:induction false} ExplodeCons(sep: char, c: char, s: string)
    requires c != sep
    ensures Explode(sep, [c] + s) == [[c] + Explode(sep, s)[0]] + Explode(sep, s)[1..]
  {
    assert ([c] + s)[1..] == s;
  }

  lemma {:induction false} ExplodeSep(sep: char, s: string)
    ensures Explode(sep, [sep] + s) == [""] + Explode(sep, s)
  {
    assert ([sep] + s)[1..] == s;
  }

  /** What the pieces of a text promise: together they are the text, the
      first has no upper-case letter and every other one starts with one. */
  predicate PiecesOf(p: seq<string>, text: string)
  {
    p != [] && Concat(p) == text && NoUpper(p[0]) && forall k :: 1 <= k < |p| ==> StartsUpper(p[k])
  }

  lemma {:induction false} PiecesUpper(c: char, t: string, e: seq<string>)
    requires IsUpper(c) && PiecesOf(e, t)
    ensures PiecesOf(["", [c] + e[0]] + e[1..], [c] + t)
  {
    var p := ["", [c] + e[0]] + e[1..];
    assert p[1..] == [[c] + e[0]] + e[1..];
    assert Concat(p) == "" + Concat(p[1..]);
    assert Concat(e) == e[0] + Concat(e[1..]);
    assert Concat(p[1..]) == [c] + e[0] + Concat(e[1..]);
    forall k | 1 <= k < |p| ensures StartsUpper(p[k]) {
      if k >= 2 { assert p[k] == e[k - 1]; }
    }
  }

  lemma {:induction false} PiecesOther(c: char, t: string, e: seq<string>)
    requires !IsUpper(c) && PiecesOf(e, t)
    ensures PiecesOf([[c] + e[0]] + e[1..], [c] + t)
  {
    var p := [[c] + e[0]] + e[1..];
    assert Concat(e) == e[0] + Concat(e[1..]);
    assert Concat(p) == [c] + e[0] + Concat(e[1..]);
    assert NoUpper(p[0]) by {
      forall k | 0 <= k < |p[0]| ensures !IsUpper(p[0][k]) {
        if k > 0 { assert p[0][k] == e[0][k - 1]; }
      }
    }
    forall k | 1 <= k < |p| ensures StartsUpper(p[k]) {
      assert p[k] == e[k];
    }
  }

  /** The pieces of the marked text: together they are the text; the first
      has no upper-case letter and every other one starts with one. */
  lemma {:induction false} MarkPieces(text: string)
    requires '|' !in text
    ensures PiecesOf(Explode('|', Mark(text)), text)
  {
    if text == [] {
      assert Explode('|', Mark(text)) == [""];
    } else {
      var c := text[0];
      var t := text[1..];
      assert '|' !in t by {
        forall k | 0 <= k < |t| ensures t[k] != '|' { assert t[k] == text[k + 1]; }
      }
      MarkPieces(t);
      var m := Mark(t);
      var e := Explode('|', m);
      assert text == [c] + t;
      ExplodeCons('|', c, m);
      if IsUpper(c) {
        assert Mark(text) == ['|'] + ([c] + m);
        ExplodeSep('|', [c] + m);
        assert Explode('|', Mark(text)) == ["", [c] + e[0]] + e[1..];
        PiecesUpper(c, t, e);
      } else {
        assert Mark(text) == [c] + m;
        PiecesOther(c, t, e);
      }
    }
  }

  lemma {:induction false} DropFalsyUpper(ps: seq<string>)
    requires forall k :: 0 <= k < |ps| ==> StartsUpper(ps[k])
    ensures DropFalsy(ps) == ps
  {
    if ps != [] {
      DropFalsyUpper(ps[1..]);
      assert ps == [ps[0]] + ps[1..];
    }
  }

  /** The words of a piece list: the falsy first piece dropped, the rest kept. */
  lemma {:induction false} WordsOfPieces(p: seq<string>, text: string)
    requires PiecesOf(p, text)
    ensures var ws := DropFalsy(p);
      && ws == (if p[0] != "" && p[0] != "0" then [p[0]] else []) + p[1..]
      && CamelWords(ws)
      && (Concat(ws) == text || (p[0] == "0" && Concat(ws) == text[1..]))
  {
    assert forall k :: 0 <= k < |p[1..]| ==> StartsUpper(p[1..][k]) by {
      forall k | 0 <= k < |p[1..]| ensures StartsUpper(p[1..][k]) { assert p[1..][k] == p[k + 1]; }
    }
    DropFalsyUpper(p[1..]);
    var ws := DropFalsy(p);
    var head := if p[0] != "" && p[0] != "0" then [p[0]] else [];
    assert ws == head + p[1..];
    assert Concat(p) == p[0] + Concat(p[1..]);
    ConcatAppend(head, p[1..]);
    forall k | 1 <= k < |ws| ensures StartsUpper(ws[k]) {
      if head != [] { assert ws[k] == p[1..][k - 1]; } else { assert ws[k] == p[1..][k]; }
    }
    if p[0] == "0" {
      assert text == "0" + Concat(p[1..]);
      assert text[1..] == Concat(p[1..]);
    }
  }

  /** The words of a related base: no empty or `'0'` word, every word after
      the first starts with an upper-case letter, and together they spell the
      text after `with`, except for a lone leading `0` the filter drops. */
  lemma {:induction false} WordsOfShape(base: string)
    requires |base| >= 4 && (base[..4] == "with" || base[..4] == "With") && '|' !in base
    ensures var ws := WordsOf(base);
      && (forall k :: 0 <= k < |ws| ==> ws[k] != "" && ws[k] != "0")
      && CamelWords(ws)
      && (Concat(ws) == base[4..] || (base[4..5] == "0" && Concat(ws) == base[5..]))
  {
    var text := base[4..];
    assert '|' !in text by {
      forall k | 0 <= k < |text| ensures text[k] != '|' { assert text[k] == base[k + 4]; }
    }
    MarkPieces(text);
    var p := Explode('|', Mark(text));
    WordsOfPieces(p, text);
    assert WordsOf(base) == DropFalsy(p);
    if p[0] == "0" {
      assert text[0] == '0' by { assert text == p[0] + Concat(p[1..]); }
      assert base[4..5] == [text[0]];
      assert base[5..] == text[1..];
    }
  }

  // ---------------------------------------------------------------------------
  // The relation prefix

  datatype Split = Split(relationName: string, conditionsWords: seq<string>)

  /** `method_exists($modelClass, "get" . implode('', $words))` over the
      lower-cased method table of the model. */
  predicate HasGetter(methods: set<string>, words: seq<string>)
  {
    Lower("get" + Concat(words)) in methods
  }

  /** The first prefix of length `i` or more that names a getter. */
  function FirstRelationFrom(words: seq<string>, methods: set<string>, i: nat): Option<Split>
    requires 1 <= i
    decreases |words| + 1 - i
  {
    if i > |words| then None
    else if HasGetter(methods, words[..i]) then Some(Split(LcFirst(Concat(words[..i])), words[i..]))
    else FirstRelationFrom(words, methods, i + 1)
  }

  /** The relation a list of words starts with, if any, and the words left after it. */
  function FirstRelation(words: seq<string>, methods: set<string>): Option<Split>
  {
    FirstRelationFrom(words, methods, 1)
  }

  predicate NoGetterBelow(words: seq<string>, methods: set<string>, i: nat)
  {
    forall j :: 1 <= j < i && j <= |words| ==> !HasGetter(methods, words[..j])
  }

  lemma {:induction false} FirstRelationFromSpec(words: seq<string>, methods: set<string>, i: nat)
    requires 1 <= i && NoGetterBelow(words, methods, i)
    ensures FirstRelationFrom(words, methods, i).None? <==>
      forall j :: 1 <= j <= |words| ==> !HasGetter(methods, words[..j])
    ensures forall j :: 1 <= j <= |words| && HasGetter(methods, words[..j]) && NoGetterBelow(words, methods, j) ==>
      FirstRelationFrom(words, methods, i) == Some(Split(LcFirst(Concat(words[..j])), words[j..]))
    decreases |words| + 1 - i
  {
    if i <= |words| && !HasGetter(methods, words[..i]) {
      FirstRelationFromSpec(words, methods, i + 1);
    }
  }

  /** The relation found is the shortest word prefix with a getter: no
      relation exactly when no prefix has one, and otherwise the one whose
      shorter prefixes all have none. */
  lemma {:induction false} FirstRelationShortest(words: seq<string>, methods: set<string>)
    ensures FirstRelation(words, methods).None? <==>
      forall j :: 1 <= j <= |words| ==> !HasGetter(methods, words[..j])
    ensures forall j :: 1 <= j <= |words| && HasGetter(methods, words[..j]) && NoGetterBelow(words, methods, j) ==>
      FirstRelation(words, methods) == Some(Split(LcFirst(Concat(words[..j])), words[j..]))
  {
    FirstRelationFromSpec(words, methods, 1);
  }

  /** With getters for both `Author` and `AuthorName`, the shorter wins and
      `Name` is left over; with only `AuthorName`, both words name the relation. */
  lemma {:induction false} FirstRelationAuthorName()
    ensures FirstRelation(["Author", "Name"], {"getauthor", "getauthorname"}) == Some(Split("author", ["Name"]))
    ensures FirstRelation(["Author", "Name"], {"getauthorname"}) == Some(Split("authorName", []))
  {
    var ws := ["Author", "Name"];
    assert ws[..1] == ["Author"] && ws[..2] == ws;
    assert Concat(["Author"]) == "Author";
    assert Concat(ws) == "AuthorName";
    assert "get" + "Author" == "getAuthor";
    assert "get" + "AuthorName" == "getAuthorName";
    assert Lower("getAuthor") == "getauthor";
    assert Lower("getAuthorName") == "getauthorname";
    assert LcFirst("Author") == "author";
    assert LcFirst("AuthorName") == "authorName";
    assert ws[1..] == ["Name"] && ws[2..] == [];
    assert HasGetter({"getauthor", "getauthorname"}, ws[..1]);
    assert !HasGetter({"getauthorname"}, ws[..1]);
    assert HasGetter({"getauthorname"}, ws[..2]);
    assert FirstRelationFrom(ws, {"getauthorname"}, 1) == FirstRelationFrom(ws, {"getauthorname"}, 2);
  }

  /** A relation found among the words of a base always leaves words that
      each start with an upper-case letter. */
  lemma {:induction false} FirstRelationRest(words: seq<string>, methods: set<string>, i: nat)
    requires 1 <= i && CamelWords(words)
    requires FirstRelationFrom(words, methods, i).Some?
    ensures forall k :: 0 <= k < |FirstRelationFrom(words, methods, i).value.conditionsWords| ==>
      StartsUpper(FirstRelationFrom(words, methods, i).value.conditionsWords[k])
    decreases |words| + 1 - i
  {
    if !HasGetter(methods, words[..i]) {
      FirstRelationRest(words, methods, i + 1);
    } else {
      var rest := words[i..];
      forall k | 0 <= k < |rest| ensures StartsUpper(rest[k]) { assert rest[k] == words[i + k]; }
    }
  }

  /** A relation name found among words that are neither empty nor `'0'` is
      truthy, so the search loop stops at it. */
  lemma {:induction false} RelationNameTruthy(words: seq<string>, i: nat)
    requires 1 <= i <= |words| && words[0] != "" && words[0] != "0"
    ensures Truthy(Str(LcFirst(Concat(words[..i]))))
  {
    var s := Concat(words[..i]);
    assert words[..i] == [words[0]] + words[..i][1..];
    assert s == words[0] + Concat(words[..i][1..]);
    if |s| == 1 {
      assert s == words[0];
      assert LcFirst(s) == [ToLowerChar(s[0])];
    }
  }

  /** `splitRelationFromConditionsWords()` for a base condition on a query
      whose model has the (lower-cased) `methods`. */
  method SplitRelationFromConditionsWords(base: string, methods: set<string>) returns (split: Option<Split>)
    ensures split == FirstRelation(WordsOf(base), methods)
  {
    var words := WordsOf(base);
    var relationName := "";
    var conditionsWords: seq<string> := [];
    var n := |words|;
    var i := 1;
    while i <= n && !Truthy(Str(relationName))
      invariant 1 <= i <= n + 1
      invariant !Truthy(Str(relationName)) ==> FirstRelationFrom(words, methods, i) == FirstRelation(words, methods)
      invariant Truthy(Str(relationName)) ==> FirstRelation(words, methods) == Some(Split(relationName, conditionsWords))
      decreases n + 1 - i, if Truthy(Str(relationName)) then 0 else 1
    {
      if HasGetter(methods, words[..i]) {
        RelationNameTruthy(words, i);
        relationName := LcFirst(Concat(words[..i]));
        conditionsWords := words[i..];
      } else {
        i := i + 1;
      }
    }
    if Truthy(Str(relationName)) {
      split := Some(Split(relationName, conditionsWords));
    } else {
      split := None;
    }
  }

  // ---------------------------------------------------------------------------
  // Cutting the remaining words into condition names

  /** Prefixes a condition to a successful cut; a failed cut stays failed. */
  function Prepend(cs: seq<string>, r: Option<seq<string>>): Option<seq<string>>
  {
    if r.Some? then Some(cs + r.value) else None
  }

  /** The greedy cut of `words`, with `chain` already accumulated: a condition
      is emitted as soon as the chain (first letter lowered) names one; the
      cut fails when a truthy chain is left over at the end. */
  function SegmentFrom(words: seq<string>, chain: string, methods: set<string>): Option<seq<string>>
    decreases |words|
  {
    if words == [] then (if Truthy(Str(chain)) then None else Some([]))
    else
      var c := chain + words[0];
      if Conditions.HasConditionMethod(methods, LcFirst(c)) then
        Prepend([LcFirst(c)], SegmentFrom(words[1..], "", methods))
      else SegmentFrom(words[1..], c, methods)
  }

  function Segment(words: seq<string>, methods: set<string>): Option<seq<string>>
  {
    SegmentFrom(words, "", methods)
  }

  lemma {:induction false} PrependPrepend(a: seq<string>, b: seq<string>, r: Option<seq<string>>)
    ensures Prepend(a, Prepend(b, r)) == Prepend(a + b, r)
  {
    if r.Some? {
      assert a + (b + r.value) == (a + b) + r.value;
    }
  }

  /** One step of the cut, unfolded. */
  lemma {:induction false} SegmentFromStep(words: seq<string>, chain: string, methods: set<string>)
    requires words != []
    ensures var c := chain + words[0];
      SegmentFrom(words, chain, methods) ==
        if Conditions.HasConditionMethod(methods, LcFirst(c)) then
          Prepend([LcFirst(c)], SegmentFrom(words[1..], "", methods))
        else SegmentFrom(words[1..], c, methods)
  {
  }

  /** `parseConditionsFromWords($subQuery, $words)` for a related query whose
      class has the (lower-cased) `methods`. */
  method ParseConditionsFromWords(methods: set<string>, words: seq<string>) returns (conditions: Option<seq<string>>)
    ensures conditions == Segment(words, methods)
  {
    var wordChain := "";
    var found: seq<string> := [];
    assert words[0..] == words;
    assert Prepend([], Segment(words, methods)) == Segment(words, methods) by {
      if Segment(words, methods).Some? { assert [] + Segment(words, methods).value == Segment(words, methods).value; }
    }
    for k := 0 to |words|
      invariant Segment(words, methods) == Prepend(found, SegmentFrom(words[k..], wordChain, methods))
    {
      assert words[k..][0] == words[k];
      assert words[k..][1..] == words[k + 1..];
      SegmentFromStep(words[k..], wordChain, methods);
      wordChain := wordChain + words[k];
      var possibleCondition := LcFirst(wordChain);
      if Conditions.HasConditionMethod(methods, possibleCondition) {
        PrependPrepend(found, [possibleCondition], SegmentFrom(words[k + 1..], "", methods));
        found := found + [possibleCondition];
        wordChain := "";
      }
    }
    assert words[|words|..] == [];
    if !Truthy(Str(wordChain)) {
      assert found + [] == found;
      conditions := Some(found);
    } else {
      conditions := None;
    }
  }

  function LcFirsts(ws: seq<string>): (r: seq<string>)
    ensures |r| == |ws| && forall k :: 0 <= k < |ws| ==> r[k] == LcFirst(ws[k])
  {
    seq(|ws|, k requires 0 <= k < |ws| => LcFirst(ws[k]))
  }

  function UcFirsts(cs: seq<string>): (r: seq<string>)
    ensures |r| == |cs| && forall k :: 0 <= k < |cs| ==> r[k] == UcFirst(cs[k])
  {
    seq(|cs|, k requires 0 <= k < |cs| => UcFirst(cs[k]))
  }

  /** A cut into condition names of `methods` that spells `text` again. */
  predicate SoundCut(cs: seq<string>, methods: set<string>, text: string)
  {
    && (forall k :: 0 <= k < |cs| ==> Conditions.HasConditionMethod(methods, cs[k]))
    && Concat(UcFirsts(cs)) == text
  }

  lemma {:induction false} EmittedFirst(c: string, rest: seq<string>, methods: set<string>, text: string)
    requires StartsUpper(c) && Conditions.HasConditionMethod(methods, LcFirst(c))
    requires SoundCut(rest, methods, text)
    ensures SoundCut([LcFirst(c)] + rest, methods, c + text)
  {
    var cs := [LcFirst(c)] + rest;
    UcFirstLcFirst(c);
    assert UcFirsts(cs) == [c] + UcFirsts(rest);
    forall k | 0 <= k < |cs| ensures Conditions.HasConditionMethod(methods, cs[k]) {
      if k > 0 { assert cs[k] == rest[k - 1]; }
    }
  }

  lemma {:induction false} SegmentFromSound(words: seq<string>, chain: string, methods: set<string>)
    requires chain == "" || IsUpper(chain[0])
    requires forall k :: 0 <= k < |words| ==> StartsUpper(words[k])
    requires SegmentFrom(words, chain, methods).Some?
    ensures SoundCut(SegmentFrom(words, chain, methods).value, methods, chain + Concat(words))
    decreases |words|
  {
    if words == [] {
      assert chain == "";
      assert UcFirsts([]) == [];
    } else {
      var c := chain + words[0];
      assert StartsUpper(c) by {
        assert c[0] == (if chain == "" then words[0][0] else chain[0]);
      }
      var ws := words[1..];
      assert forall k :: 0 <= k < |ws| ==> StartsUpper(ws[k]) by {
        forall k | 0 <= k < |ws| ensures StartsUpper(ws[k]) { assert ws[k] == words[k + 1]; }
      }
      SegmentFromStep(words, chain, methods);
      assert chain + Concat(words) == c + Concat(ws) by {
        assert Concat(words) == words[0] + Concat(ws);
        AppendAssoc(chain, words[0], Concat(ws));
      }
      if Conditions.HasConditionMethod(methods, LcFirst(c)) {
        SegmentFromSound(ws, "", methods);
        var rest := SegmentFrom(ws, "", methods).value;
        assert "" + Concat(ws) == Concat(ws);
        EmittedFirst(c, rest, methods, Concat(ws));
        assert SegmentFrom(words, chain, methods).value == [LcFirst(c)] + rest;
      } else {
        SegmentFromSound(ws, c, methods);
      }
    }
  }

  /** Every name the cut emits is a condition of the related query, and
      putting the names back with their first letters raised gives the words
      again: no word is lost or reordered. */
  lemma {:induction false} SegmentRoundTrip(words: seq<string>, methods: set<string>)
    requires forall k :: 0 <= k < |words| ==> StartsUpper(words[k])
    requires Segment(words, methods).Some?
    ensures forall k :: 0 <= k < |Segment(words, methods).value| ==>
      Conditions.HasConditionMethod(methods, Segment(words, methods).value[k])
    ensures Concat(UcFirsts(Segment(words, methods).value)) == Concat(words)
  {
    SegmentFromSound(words, "", methods);
  }

  /** When every word alone names a condition, each word becomes its own condition. */
  lemma {:induction false} SegmentSingles(words: seq<string>, methods: set<string>)
    requires forall k :: 0 <= k < |words| ==> Conditions.HasConditionMethod(methods, LcFirst(words[k]))
    ensures Segment(words, methods) == Some(LcFirsts(words))
  {
    if words != [] {
      assert "" + words[0] == words[0];
      var ws := words[1..];
      assert forall k :: 0 <= k < |ws| ==> Conditions.HasConditionMethod(methods, LcFirst(ws[k])) by {
        forall k | 0 <= k < |ws| ensures Conditions.HasConditionMethod(methods, LcFirst(ws[k])) {
          assert ws[k] == words[k + 1];
        }
      }
      SegmentSingles(ws, methods);
      SegmentFromStep(words, "", methods);
      var all := LcFirsts(words);
      var rest := LcFirsts(ws);
      assert Segment(ws, methods) == Some(rest);
      assert Segment(words, methods) == Prepend([LcFirst(words[0])], Some(rest));
      assert all == [LcFirst(words[0])] + rest;
    } else {
      assert !Truthy(Str(""));
      assert Segment(words, methods) == Some([]);
    }
  }

  /** Extending the chain by the first word and then by `i` more is the chain
      followed by the first `i + 1` words. */
  lemma {:induction false} ChainThenWords(words: seq<string>, chain: string, i: nat)
    requires i < |words|
    ensures (chain + words[0]) + Concat(words[1..][..i]) == chain + Concat(words[..i + 1])
  {
    var rest := words[1..][..i];
    assert words[..i + 1] == [words[0]] + rest;
    assert ([words[0]] + rest)[1..] == rest;
    assert Concat(words[..i + 1]) == words[0] + Concat(rest);
    AppendAssoc(chain, words[0], Concat(rest));
  }

  /** Greedy, with a chain already accumulated: the first name emitted is the
      shortest run of words that, added to the chain, names a condition, and
      the cut goes on after it with an empty chain. */
  lemma {:induction false} SegmentFromShortest(words: seq<string>, chain: string, methods: set<string>, j: nat)
    requires 1 <= j <= |words|
    requires Conditions.HasConditionMethod(methods, LcFirst(chain + Concat(words[..j])))
    requires forall i :: 1 <= i < j ==> !Conditions.HasConditionMethod(methods, LcFirst(chain + Concat(words[..i])))
    ensures SegmentFrom(words, chain, methods)
      == Prepend([LcFirst(chain + Concat(words[..j]))], SegmentFrom(words[j..], "", methods))
    decreases j
  {
    var c := chain + words[0];
    ChainThenWords(words, chain, 0);
    assert Concat(words[1..][..0]) == "" && c + "" == c;
    SegmentFromStep(words, chain, methods);
    if j > 1 {
      var ws := words[1..];
      forall i | 1 <= i < j - 1
        ensures !Conditions.HasConditionMethod(methods, LcFirst(c + Concat(ws[..i])))
      {
        ChainThenWords(words, chain, i);
      }
      ChainThenWords(words, chain, j - 1);
      SegmentFromShortest(ws, c, methods, j - 1);
      assert ws[j - 1..] == words[j..];
    }
  }

  /** With a chain already accumulated: when no run of words completes the
      chain to a condition name, nothing is emitted, and the cut fails exactly
      when the whole chain is truthy. */
  lemma {:induction false} SegmentFromNone(words: seq<string>, chain: string, methods: set<string>)
    requires forall i :: 1 <= i <= |words| ==> !Conditions.HasConditionMethod(methods, LcFirst(chain + Concat(words[..i])))
    ensures SegmentFrom(words, chain, methods) == (if Truthy(Str(chain + Concat(words))) then None else Some([]))
    decreases |words|
  {
    if words == [] {
      assert chain + Concat(words) == chain;
    } else {
      var c := chain + words[0];
      var ws := words[1..];
      ChainThenWords(words, chain, 0);
      assert Concat(ws[..0]) == "" && c + "" == c;
      SegmentFromStep(words, chain, methods);
      forall i | 1 <= i <= |ws|
        ensures !Conditions.HasConditionMethod(methods, LcFirst(c + Concat(ws[..i])))
      {
        ChainThenWords(words, chain, i);
      }
      SegmentFromNone(ws, c, methods);
      ChainThenWords(words, chain, |ws|);
      assert ws[..|ws|] == ws && words[..|ws| + 1] == words;
    }
  }

  /** `parseConditionsFromWords` is greedy: the first condition it finds is
      the shortest run of leading words that names one, and the rest of the
      words are cut the same way. */
  lemma {:induction false} SegmentGreedy(words: seq<string>, methods: set<string>, j: nat)
    requires 1 <= j <= |words|
    requires Conditions.HasConditionMethod(methods, LcFirst(Concat(words[..j])))
    requires forall i :: 1 <= i < j ==> !Conditions.HasConditionMethod(methods, LcFirst(Concat(words[..i])))
    ensures Segment(words, methods)
      == Prepend([LcFirst(Concat(words[..j]))], Segment(words[j..], methods))
  {
    forall i | 1 <= i <= j ensures "" + Concat(words[..i]) == Concat(words[..i]) { }
    SegmentFromShortest(words, "", methods, j);
  }

  /** When no run of leading words names a condition, the cut finds none and
      fails unless the words spell a falsy string. */
  lemma {:induction false} SegmentNoCondition(words: seq<string>, methods: set<string>)
    requires forall i :: 1 <= i <= |words| ==> !Conditions.HasConditionMethod(methods, LcFirst(Concat(words[..i])))
    ensures Segment(words, methods) == (if Truthy(Str(Concat(words))) then None else Some([]))
  {
    forall i | 1 <= i <= |words| ensures "" + Concat(words[..i]) == Concat(words[..i]) { }
    assert "" + Concat(words) == Concat(words);
    SegmentFromNone(words, "", methods);
  }
}
