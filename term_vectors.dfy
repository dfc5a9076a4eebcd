/** The alignment step of `calculateCosineSimilarity`: both descriptions are
    lower-cased, weighed as a two-document TF-IDF corpus, each document's
    term list is folded into a dictionary, and both dictionaries are projected
    onto the union of their keys, with 0 for a term a document lacks, except
    that a missing name inherited from `Object.prototype` reads as a
    function and turns the score into NaN. The
    TF-IDF weighting and the cosine of the two vectors are computed by
    libraries; here they are the parameters `weigh` and `cosine`. */
module TermVectors {
  import opened Text

  /** One entry of `tfidf.listTerms(k)`. */
  datatype TermWeight = TermWeight(term: string, tfidf: real)

  /** Given the two lower-cased documents in the order they are added, the
      term lists `listTerms(0)` and `listTerms(1)`. */
  type Weighting = (string, string) -> (seq<TermWeight>, seq<TermWeight>)

  /** The result of the cosine-similarity library: a number, or NaN when a
      vector has norm zero. */
  datatype Score = Num(value: real) | NaN

  type Cosine = (seq<real>, seq<real>) -> Score

  /** The shared basis and the two vectors projected onto it. */
  datatype Aligned = Aligned(basis: seq<string>, v1: seq<real>, v2: seq<real>)

  predicate Distinct(s: seq<string>) {
    forall i, j :: 0 <= i < j < |s| ==> s[i] != s[j]
  }

  /** The terms of a term list, in list order. */
  function Terms(list: seq<TermWeight>): (ts: seq<string>)
    ensures |ts| == |list|
    ensures forall i :: 0 <= i < |list| ==> ts[i] == list[i].term
  {
    if list == [] then [] else Terms(list[..|list| - 1]) + [list[|list| - 1].term]
  }

  /** The set of terms a term list mentions. */
  function TermSet(list: seq<TermWeight>): set<string> {
    set t | t in list :: t.term
  }

  /** Duplicates removed, each element kept at its first occurrence: the
      order of `Array.from(new Set(s))`, and the order in which keys enter a
      JavaScript object. */
  function Dedup(s: seq<string>): (r: seq<string>)
    ensures Distinct(r)
    ensures forall x :: x in r <==> x in s
  {
    if s == [] then []
    else
      var p := Dedup(s[..|s| - 1]);
      var x := s[|s| - 1];
      assert forall y :: y in s <==> y in s[..|s| - 1] || y == x by {
        assert s == s[..|s| - 1] + [x];
      }
      if x in p then p else p + [x]
  }

  /** `x` occurs in `s` before any occurrence of `y`. */
  predicate Before(s: seq<string>, x: string, y: string) {
    exists p :: 0 <= p < |s| && s[p] == x && forall q :: 0 <= q <= p ==> s[q] != y
  }

  lemma BeforeExtend(s: seq<string>, x: string, a: string, b: string)
    requires Before(s, a, b)
    ensures Before(s + [x], a, b)
  {
    var p :| 0 <= p < |s| && s[p] == a && forall q :: 0 <= q <= p ==> s[q] != b;
    assert forall q :: 0 <= q <= p ==> (s + [x])[q] == s[q];
  }

  lemma BeforeNew(s: seq<string>, x: string, a: string)
    requires a in s && x !in s
    ensures Before(s + [x], a, x)
  {
    var p :| 0 <= p < |s| && s[p] == a;
    assert forall q :: 0 <= q <= p ==> (s + [x])[q] == s[q];
  }

  /** Dedup keeps first-occurrence order: of two kept elements, the earlier
      one occurs in `s` before any occurrence of the later one. */
  lemma {:induction false} DedupOrder(s: seq<string>)
    ensures forall i, j :: 0 <= i < j < |Dedup(s)| ==> Before(s, Dedup(s)[i], Dedup(s)[j])
  {
    if s == [] {
      assert Dedup(s) == [];
    } else {
      var n := |s| - 1;
      var front, x := s[..n], s[n];
      var p, r := Dedup(front), Dedup(s);
      DedupOrder(front);
      assert s == front + [x];
      assert r == if x in p then p else p + [x];
      forall i, j | 0 <= i < j < |r|
        ensures Before(s, r[i], r[j])
      {
        assert r[i] == p[i] && r[i] in front;
        if j < |p| {
          assert r[j] == p[j];
          BeforeExtend(front, x, p[i], p[j]);
        } else {
          BeforeNew(front, x, r[i]);
        }
      }
    }
  }

  /** The weight a dictionary filled from `list` holds for `term` (a later
      entry overwrites an earlier one), or 0 when no entry has that term:
      `obj[term] || 0`. */
  function LastWeight(list: seq<TermWeight>, term: string): real {
    if list == [] then 0.0
    else if list[|list| - 1].term == term then list[|list| - 1].tfidf
    else LastWeight(list[..|list| - 1], term)
  }

  /** `LastWeight` is 0 for an absent term and otherwise the weight of the
      term's last entry. */
  lemma {:induction false} LastWeightIsLastEntry(list: seq<TermWeight>, term: string)
    ensures term !in TermSet(list) ==> LastWeight(list, term) == 0.0
    ensures term in TermSet(list) ==>
      exists i :: 0 <= i < |list| && list[i].term == term && LastWeight(list, term) == list[i].tfidf
        && forall j :: i < j < |list| ==> list[j].term != term
  {
    if list != [] {
      var n := |list| - 1;
      var front := list[..n];
      assert list == front + [list[n]];
      TermSetAppend(front, list[n]);
      LastWeightIsLastEntry(front, term);
      if list[n].term != term && term in TermSet(list) {
        var i :| 0 <= i < |front| && front[i].term == term && LastWeight(front, term) == front[i].tfidf
          && forall j :: i < j < |front| ==> front[j].term != term;
        assert list[i] == front[i];
      }
    }
  }

  /** The dictionary and key list filled from `list` (keys in insertion
      order). */
  predicate Folded(list: seq<TermWeight>, obj: map<string, real>, keys: seq<string>) {
    && obj.Keys == TermSet(list)
    && (forall t :: t in obj ==> obj[t] == LastWeight(list, t))
    && keys == Dedup(Terms(list))
  }

  lemma TermSetAppend(list: seq<TermWeight>, entry: TermWeight)
    ensures TermSet(list + [entry]) == TermSet(list) + {entry.term}
  {
  }

  lemma TermsAppend(list: seq<TermWeight>, entry: TermWeight)
    ensures Terms(list + [entry]) == Terms(list) + [entry.term]
  {
    assert (list + [entry])[..|list|] == list;
  }

  lemma DedupAppend(s: seq<string>, x: string)
    ensures Dedup(s + [x]) == if x in s then Dedup(s) else Dedup(s) + [x]
  {
    assert (s + [x])[..|s|] == s;
  }

  lemma LastWeightAppend(list: seq<TermWeight>, entry: TermWeight, term: string)
    ensures LastWeight(list + [entry], term) == if term == entry.term then entry.tfidf else LastWeight(list, term)
  {
    assert (list + [entry])[..|list|] == list;
  }

  /** Storing one more entry keeps the dictionary and its keys filled from
      the longer list: the key is appended only when it is new. */
  lemma FoldStep(list: seq<TermWeight>, entry: TermWeight, obj: map<string, real>, keys: seq<string>)
    requires Folded(list, obj, keys)
    ensures Folded(list + [entry], obj[entry.term := entry.tfidf],
                   if entry.term in obj then keys else keys + [entry.term])
  {
    var list' := list + [entry];
    var obj' := obj[entry.term := entry.tfidf];
    var keys' := if entry.term in obj then keys else keys + [entry.term];
    TermSetAppend(list, entry);
    assert obj'.Keys == TermSet(list');
    forall t | t in obj'
      ensures obj'[t] == LastWeight(list', t)
    {
      LastWeightAppend(list, entry, t);
    }
    TermsAppend(list, entry);
    TermsHasTermSet(list);
    DedupAppend(Terms(list), entry.term);
    assert (entry.term in obj) == (entry.term in Terms(list));
    assert keys' == Dedup(Terms(list'));
  }

  /** `vector.forEach(term => obj[term.term] = term.tfidf)` on an empty
      object: returns the object and its keys in insertion order
      (`Object.keys(obj)`). */
  method FoldTerms(list: seq<TermWeight>) returns (obj: map<string, real>, keys: seq<string>)
    ensures obj.Keys == TermSet(list)
    ensures forall t :: t in obj ==> obj[t] == LastWeight(list, t)
    ensures keys == Dedup(Terms(list))
  {
    obj, keys := map[], [];
    ghost var done: seq<TermWeight> := [];
    for i := 0 to |list|
      invariant done == list[..i]
      invariant Folded(done, obj, keys)
    {
      var entry := list[i];
      FoldStep(done, entry, obj, keys);
      keys := if entry.term in obj then keys else keys + [entry.term];
      obj := obj[entry.term := entry.tfidf];
      done := done + [entry];
    }
    assert done == list;
  }

  /** The function-valued properties every plain object inherits from
      `Object.prototype`. A dictionary built on `{}` without an own entry
      for one of these names yields the inherited function when read. */
  predicate InheritedName(term: string) {
    term in {"constructor", "hasOwnProperty", "isPrototypeOf", "propertyIsEnumerable",
             "toLocaleString", "toString", "valueOf",
             "__defineGetter__", "__defineSetter__", "__lookupGetter__", "__lookupSetter__"}
  }

  /** An entry of a projected vector: a number, or an inherited function. */
  datatype Cell = Number(x: real) | Function(name: string)

  /** `obj[term] || 0` on a dictionary that started as `{}`: the own weight
      (a weight of 0 reads as 0 either way), else the inherited function,
      else 0. */
  function Lookup(obj: map<string, real>, term: string): Cell {
    if term in obj then Number(obj[term])
    else if InheritedName(term) then Function(term)
    else Number(0.0)
  }

  /** `Array.from(terms).map(term => obj[term] || 0)`. */
  function Project(basis: seq<string>, obj: map<string, real>): seq<Cell> {
    seq(|basis|, i requires 0 <= i < |basis| => Lookup(obj, basis[i]))
  }

  predicate HasFunction(cells: seq<Cell>) {
    exists i :: 0 <= i < |cells| && cells[i].Function?
  }

  /** The numbers of a vector that holds no function. */
  function Numbers(cells: seq<Cell>): seq<real> {
    seq(|cells|, i requires 0 <= i < |cells| => if cells[i].Number? then cells[i].x else 0.0)
  }

  /** `cosineSimilarity(vector1Arr, vector2Arr)`: a function entry makes its
      products in the dot product and the norms NaN, and NaN spreads to the
      score; otherwise the library's cosine of the two number vectors. */
  function CosineOfCells(cells1: seq<Cell>, cells2: seq<Cell>, cosine: Cosine): Score {
    if HasFunction(cells1) || HasFunction(cells2) then NaN else cosine(Numbers(cells1), Numbers(cells2))
  }

  /** The weights of `list` on `basis`, read from the list itself. */
  function Weights(basis: seq<string>, list: seq<TermWeight>): seq<real> {
    seq(|basis|, i requires 0 <= i < |basis| => LastWeight(list, basis[i]))
  }

  /** The alignment of two term lists on the union of their terms, first
      occurrence order, the first list's terms first. */
  function Align(list1: seq<TermWeight>, list2: seq<TermWeight>): Aligned {
    var basis := Dedup(Dedup(Terms(list1)) + Dedup(Terms(list2)));
    Aligned(basis, Weights(basis, list1), Weights(basis, list2))
  }

  lemma TermsHasTermSet(list: seq<TermWeight>)
    ensures forall x :: x in Terms(list) <==> x in TermSet(list)
  {
  }

  lemma {:induction false} DistinctCardinality(s: seq<string>)
    requires Distinct(s)
    ensures |set x | x in s| == |s|
  {
    if s != [] {
      var n := |s| - 1;
      assert s == s[..n] + [s[n]];
      assert (set x | x in s) == (set x | x in s[..n]) + {s[n]};
      assert s[n] !in s[..n];
      DistinctCardinality(s[..n]);
    }
  }

  /** The aligned basis lists each term of either list exactly once. */
  lemma AlignedBasis(list1: seq<TermWeight>, list2: seq<TermWeight>)
    ensures var basis := Align(list1, list2).basis;
      && Distinct(basis)
      && (forall x :: x in basis <==> x in TermSet(list1) + TermSet(list2))
      && |basis| == |TermSet(list1) + TermSet(list2)|
  {
    var basis := Align(list1, list2).basis;
    TermsHasTermSet(list1);
    TermsHasTermSet(list2);
    assert forall x :: x in basis <==> x in TermSet(list1) + TermSet(list2);
    assert (set x | x in basis) == TermSet(list1) + TermSet(list2);
    DistinctCardinality(basis);
  }

  /** Both aligned vectors have the length of the basis, which lists each term
      of either document exactly once; each vector holds its own document's
      weight for the term at that position, or 0 when the document lacks it. */
  lemma AlignedVectors(list1: seq<TermWeight>, list2: seq<TermWeight>)
    ensures var a := Align(list1, list2);
      && |a.v1| == |a.basis| && |a.v2| == |a.basis|
      && Distinct(a.basis)
      && (forall x :: x in a.basis <==> x in TermSet(list1) + TermSet(list2))
      && |a.basis| == |TermSet(list1) + TermSet(list2)|
      && (forall i :: 0 <= i < |a.basis| ==>
            a.v1[i] == LastWeight(list1, a.basis[i]) && a.v2[i] == LastWeight(list2, a.basis[i]))
      && (forall i :: 0 <= i < |a.basis| ==>
            (a.basis[i] in TermSet(list1) || a.v1[i] == 0.0)
            && (a.basis[i] in TermSet(list2) || a.v2[i] == 0.0))
  {
    var a := Align(list1, list2);
    AlignedBasis(list1, list2);
    forall i | 0 <= i < |a.basis|
      ensures (a.basis[i] in TermSet(list1) || a.v1[i] == 0.0)
      ensures (a.basis[i] in TermSet(list2) || a.v2[i] == 0.0)
    {
      LastWeightIsLastEntry(list1, a.basis[i]);
      LastWeightIsLastEntry(list2, a.basis[i]);
    }
  }

  /** The terms that one list mentions and the other does not. */
  function OneSided(list1: seq<TermWeight>, list2: seq<TermWeight>): set<string> {
    (TermSet(list1) - TermSet(list2)) + (TermSet(list2) - TermSet(list1))
  }

  /** Some inherited name is a term of exactly one of the two lists. */
  predicate InheritedMismatch(list1: seq<TermWeight>, list2: seq<TermWeight>) {
    exists t :: t in OneSided(list1, list2) && InheritedName(t)
  }

  /** The score of two term lists: NaN when an inherited name is a term of
      only one of them, otherwise the cosine of the aligned weights. */
  function AlignedScore(list1: seq<TermWeight>, list2: seq<TermWeight>, cosine: Cosine): Score {
    if InheritedMismatch(list1, list2) then NaN
    else var a := Align(list1, list2); cosine(a.v1, a.v2)
  }

  /** Reading a term from the folded dictionary of `list` gives the term's
      weight when the list has it, the inherited function when it is an
      inherited name the list lacks, and 0 otherwise. */
  lemma LookupFolded(list: seq<TermWeight>, obj: map<string, real>, term: string)
    requires obj.Keys == TermSet(list) && forall t :: t in obj ==> obj[t] == LastWeight(list, t)
    ensures term in TermSet(list) ==> Lookup(obj, term) == Number(LastWeight(list, term))
    ensures term !in TermSet(list) ==>
      Lookup(obj, term) == if InheritedName(term) then Function(term) else Number(0.0)
    ensures term !in TermSet(list) ==> LastWeight(list, term) == 0.0
  {
    LastWeightIsLastEntry(list, term);
  }

  /** Scoring the projections of the two folded dictionaries on the aligned
      basis gives `AlignedScore`: a function entry appears exactly where a
      basis term is an inherited name missing from one dictionary, and
      every other entry is the weight `Align` assigns. */
  lemma FoldedScore(list1: seq<TermWeight>, list2: seq<TermWeight>,
                    obj1: map<string, real>, obj2: map<string, real>, cosine: Cosine)
    requires obj1.Keys == TermSet(list1) && forall t :: t in obj1 ==> obj1[t] == LastWeight(list1, t)
    requires obj2.Keys == TermSet(list2) && forall t :: t in obj2 ==> obj2[t] == LastWeight(list2, t)
    ensures var basis := Align(list1, list2).basis;
      CosineOfCells(Project(basis, obj1), Project(basis, obj2), cosine) == AlignedScore(list1, list2, cosine)
  {
    var a := Align(list1, list2);
    AlignedVectors(list1, list2);
    if InheritedMismatch(list1, list2) {
      FoldedMismatch(list1, list2, obj1, obj2, a.basis);
    } else {
      FoldedNumbers(list1, list2, obj1, obj2, a);
    }
  }

  lemma FoldedMismatch(list1: seq<TermWeight>, list2: seq<TermWeight>,
                       obj1: map<string, real>, obj2: map<string, real>, basis: seq<string>)
    requires obj1.Keys == TermSet(list1) && forall t :: t in obj1 ==> obj1[t] == LastWeight(list1, t)
    requires obj2.Keys == TermSet(list2) && forall t :: t in obj2 ==> obj2[t] == LastWeight(list2, t)
    requires forall x :: x in basis <==> x in TermSet(list1) + TermSet(list2)
    requires InheritedMismatch(list1, list2)
    ensures HasFunction(Project(basis, obj1)) || HasFunction(Project(basis, obj2))
  {
    var t :| t in OneSided(list1, list2) && InheritedName(t);
    assert t in basis;
    var i :| 0 <= i < |basis| && basis[i] == t;
    LookupFolded(list1, obj1, t);
    LookupFolded(list2, obj2, t);
    assert Project(basis, obj1)[i].Function? || Project(basis, obj2)[i].Function?;
  }

  lemma FoldedNumbers(list1: seq<TermWeight>, list2: seq<TermWeight>,
                      obj1: map<string, real>, obj2: map<string, real>, a: Aligned)
    requires obj1.Keys == TermSet(list1) && forall t :: t in obj1 ==> obj1[t] == LastWeight(list1, t)
    requires obj2.Keys == TermSet(list2) && forall t :: t in obj2 ==> obj2[t] == LastWeight(list2, t)
    requires a == Align(list1, list2)
    requires forall x :: x in a.basis <==> x in TermSet(list1) + TermSet(list2)
    requires !InheritedMismatch(list1, list2)
    ensures !HasFunction(Project(a.basis, obj1)) && Numbers(Project(a.basis, obj1)) == a.v1
    ensures !HasFunction(Project(a.basis, obj2)) && Numbers(Project(a.basis, obj2)) == a.v2
  {
    var cells1, cells2 := Project(a.basis, obj1), Project(a.basis, obj2);
    forall i | 0 <= i < |a.basis|
      ensures cells1[i] == Number(a.v1[i]) && cells2[i] == Number(a.v2[i])
    {
      FoldedNumber(list1, list2, obj1, obj2, a.basis[i]);
    }
    assert Numbers(cells1) == a.v1;
    assert Numbers(cells2) == a.v2;
  }

  /** A term of either list that is not a one-sided inherited name reads as
      each list's weight from both dictionaries. */
  lemma FoldedNumber(list1: seq<TermWeight>, list2: seq<TermWeight>,
                     obj1: map<string, real>, obj2: map<string, real>, t: string)
    requires obj1.Keys == TermSet(list1) && forall t :: t in obj1 ==> obj1[t] == LastWeight(list1, t)
    requires obj2.Keys == TermSet(list2) && forall t :: t in obj2 ==> obj2[t] == LastWeight(list2, t)
    requires t in TermSet(list1) + TermSet(list2)
    requires !InheritedMismatch(list1, list2)
    ensures Lookup(obj1, t) == Number(LastWeight(list1, t))
    ensures Lookup(obj2, t) == Number(LastWeight(list2, t))
  {
    assert t !in OneSided(list1, list2) || !InheritedName(t);
    LookupFolded(list1, obj1, t);
    LookupFolded(list2, obj2, t);
  }

  /** "constructor" in only one description makes the score NaN, whatever
      the weights and the cosine: the other vector holds the inherited
      function `Object` at that position. */
  lemma ConstructorTermScoresNaN(list1: seq<TermWeight>, list2: seq<TermWeight>, cosine: Cosine)
    requires "constructor" in TermSet(list1) && "constructor" !in TermSet(list2)
    ensures AlignedScore(list1, list2, cosine) == NaN
  {
    assert "constructor" in OneSided(list1, list2);
  }

  /** The score `calculateCosineSimilarity` returns: only the lower-cased
      descriptions reach the weighting. */
  function Similarity(description1: string, description2: string, weigh: Weighting, cosine: Cosine): Score {
    var (vector1, vector2) := weigh(Lower(description1), Lower(description2));
    AlignedScore(vector1, vector2, cosine)
  }

  /** `calculateCosineSimilarity` as a value, for the scan that applies it to
      each registered description. */
  function CosineScorer(weigh: Weighting, cosine: Cosine): (string, string) -> Score {
    (a: string, b: string) => Similarity(a, b, weigh, cosine)
  }

  /** Descriptions that differ only in letter case score alike. */
  lemma SimilarityIgnoresCase(a: string, a': string, b: string, b': string, weigh: Weighting, cosine: Cosine)
    requires SameUpToCase(a, a') && SameUpToCase(b, b')
    ensures Similarity(a, b, weigh, cosine) == Similarity(a', b', weigh, cosine)
  {
    LowerEqualIff(a, a');
    LowerEqualIff(b, b');
  }

  /** Lower-casing the descriptions beforehand changes nothing. */
  lemma SimilarityOfLowered(a: string, b: string, weigh: Weighting, cosine: Cosine)
    ensures Similarity(Lower(a), Lower(b), weigh, cosine) == Similarity(a, b, weigh, cosine)
  {
    LowerIdempotent(a);
    LowerIdempotent(b);
  }

  /** `calculateCosineSimilarity(description1, description2)`. */
  method CalculateCosineSimilarity(description1: string, description2: string, weigh: Weighting, cosine: Cosine)
    returns (similarity: Score)
    ensures similarity == Similarity(description1, description2, weigh, cosine)
  {
    var cleaned1 := Lower(description1);
    var cleaned2 := Lower(description2);
    var (vector1, vector2) := weigh(cleaned1, cleaned2);
    var vector1Obj, keys1 := FoldTerms(vector1);
    var vector2Obj, keys2 := FoldTerms(vector2);
    var terms := Dedup(keys1 + keys2);
    var vector1Arr := Project(terms, vector1Obj);
    var vector2Arr := Project(terms, vector2Obj);
    FoldedScore(vector1, vector2, vector1Obj, vector2Obj, cosine);
    similarity := CosineOfCells(vector1Arr, vector2Arr, cosine);
  }
}
