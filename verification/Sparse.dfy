/** Sparse vectors and the BM25 encoder of crates/actant-embedders/src/sparse.rs, over exact reals.
    Documents are sequences of tokens; how a token is hashed to its 32-bit id is the parameter
    `idOf`, so colliding tokens share an entry, as in the source. */
module Sparse {
  import opened Common

  datatype SparseVector = SparseVector(indices: seq<U32>, values: seq<real>)

  predicate Aligned(v: SparseVector) {
    |v.indices| == |v.values|
  }

  predicate Ascending(s: seq<U32>) {
    forall i, j :: 0 <= i < j < |s| ==> s[i] < s[j]
  }

  /** The weight the vector gives a token id; ids that are not listed weigh nothing. */
  function At(v: SparseVector, id: U32): real
    requires Aligned(v)
    decreases |v.indices|
  {
    if v.indices == [] then 0.0
    else if v.indices[0] == id then v.values[0]
    else At(SparseVector(v.indices[1..], v.values[1..]), id)
  }

  /** The sum over the ids of `a`, from position `i`, of the products of the two weights. */
  function SumOfProducts(a: SparseVector, b: SparseVector, i: nat): real
    requires Aligned(a) && Aligned(b) && i <= |a.indices|
    decreases |a.indices| - i
  {
    if i == |a.indices| then 0.0
    else a.values[i] * At(b, a.indices[i]) + SumOfProducts(a, b, i + 1)
  }

  /** The products met by two cursors that advance past the smaller index. */
  function Merged(a: SparseVector, b: SparseVector, i: nat, j: nat): real
    requires Aligned(a) && Aligned(b) && i <= |a.indices| && j <= |b.indices|
    decreases |a.indices| - i + |b.indices| - j
  {
    if i == |a.indices| || j == |b.indices| then 0.0
    else if a.indices[i] < b.indices[j] then Merged(a, b, i + 1, j)
    else if a.indices[i] > b.indices[j] then Merged(a, b, i, j + 1)
    else a.values[i] * b.values[j] + Merged(a, b, i + 1, j + 1)
  }

  method Dot(a: SparseVector, b: SparseVector) returns (acc: real)
    requires Aligned(a) && Aligned(b)
    ensures acc == Merged(a, b, 0, 0)
    ensures Ascending(a.indices) && Ascending(b.indices) ==> acc == SumOfProducts(a, b, 0)
  {
    var i, j := 0, 0;
    acc := 0.0;
    while i < |a.indices| && j < |b.indices|
      invariant i <= |a.indices| && j <= |b.indices|
      invariant acc + Merged(a, b, i, j) == Merged(a, b, 0, 0)
      decreases |a.indices| - i + |b.indices| - j
    {
      if a.indices[i] < b.indices[j] {
        i := i + 1;
      } else if a.indices[i] > b.indices[j] {
        j := j + 1;
      } else {
        acc := acc + a.values[i] * b.values[j];
        i := i + 1;
        j := j + 1;
      }
    }
    if Ascending(a.indices) && Ascending(b.indices) {
      MergedIsSum(a, b, 0, 0);
    }
  }

  lemma {:induction false} AtAbsent(v: SparseVector, id: U32)
    requires Aligned(v) && id !in v.indices
    ensures At(v, id) == 0.0
    decreases |v.indices|
  {
    if v.indices != [] { AtAbsent(SparseVector(v.indices[1..], v.values[1..]), id); }
  }

  lemma {:induction false} AtPosition(v: SparseVector, k: nat)
    requires Aligned(v) && Ascending(v.indices) && k < |v.indices|
    ensures At(v, v.indices[k]) == v.values[k]
    decreases k
  {
    if k > 0 { AtPosition(SparseVector(v.indices[1..], v.values[1..]), k - 1); }
  }

  /** Everything the second cursor has passed is below everything the first has not. */
  predicate Behind(a: SparseVector, b: SparseVector, i: nat, j: nat) {
    forall k, l :: i <= k < |a.indices| && 0 <= l < j && l < |b.indices| ==> b.indices[l] < a.indices[k]
  }

  lemma {:induction false} NothingInCommon(a: SparseVector, b: SparseVector, i: nat)
    requires Aligned(a) && Aligned(b) && i <= |a.indices|
    requires Behind(a, b, i, |b.indices|)
    ensures SumOfProducts(a, b, i) == 0.0
    decreases |a.indices| - i
  {
    if i < |a.indices| {
      AtAbsent(b, a.indices[i]);
      NothingInCommon(a, b, i + 1);
    }
  }

  lemma {:induction false} MergedIsSum(a: SparseVector, b: SparseVector, i: nat, j: nat)
    requires Aligned(a) && Aligned(b) && i <= |a.indices| && j <= |b.indices|
    requires Ascending(a.indices) && Ascending(b.indices) && Behind(a, b, i, j)
    ensures Merged(a, b, i, j) == SumOfProducts(a, b, i)
    decreases |a.indices| - i + |b.indices| - j
  {
    if j == |b.indices| {
      NothingInCommon(a, b, i);
    } else if i < |a.indices| {
      if a.indices[i] < b.indices[j] {
        AtAbsent(b, a.indices[i]);
        MergedIsSum(a, b, i + 1, j);
      } else if a.indices[i] > b.indices[j] {
        MergedIsSum(a, b, i, j + 1);
      } else {
        AtPosition(b, j);
        MergedIsSum(a, b, i + 1, j + 1);
      }
    }
  }

  lemma {:induction false} MergedIsSymmetric(a: SparseVector, b: SparseVector, i: nat, j: nat)
    requires Aligned(a) && Aligned(b) && i <= |a.indices| && j <= |b.indices|
    ensures Merged(a, b, i, j) == Merged(b, a, j, i)
    decreases |a.indices| - i + |b.indices| - j
  {
    if i < |a.indices| && j < |b.indices| {
      if a.indices[i] < b.indices[j] {
        MergedIsSymmetric(a, b, i + 1, j);
      } else if a.indices[i] > b.indices[j] {
        MergedIsSymmetric(a, b, i, j + 1);
      } else {
        MergedIsSymmetric(a, b, i + 1, j + 1);
      }
    }
  }

  /** On ascending vectors the two-cursor loop computes the sum over all ids, from either side. */
  lemma DotIsTheSum(a: SparseVector, b: SparseVector)
    requires Aligned(a) && Aligned(b) && Ascending(a.indices) && Ascending(b.indices)
    ensures Merged(a, b, 0, 0) == SumOfProducts(a, b, 0) == SumOfProducts(b, a, 0)
  {
    MergedIsSum(a, b, 0, 0);
    MergedIsSum(b, a, 0, 0);
    MergedIsSymmetric(a, b, 0, 0);
  }

  /** Without ascending indices the loop can step over a common id. */
  lemma UnsortedVectorsLoseProducts()
    ensures var a, b := SparseVector([2, 1], [1.0, 1.0]), SparseVector([1], [1.0]);
            Merged(a, b, 0, 0) == 0.0 && SumOfProducts(a, b, 0) == 1.0
  {
    var a, b := SparseVector([2, 1], [1.0, 1.0]), SparseVector([1], [1.0]);
    AtAbsent(b, 2);
    AtPosition(b, 0);
    assert SumOfProducts(a, b, 2) == 0.0;
    assert SumOfProducts(a, b, 1) == 1.0;
    assert Merged(a, b, 0, 1) == 0.0;
  }

  // --------------------------------------------------------------- encoding

  /** How many tokens hash to `id`. */
  function Count(tokens: seq<string>, id: U32, idOf: string -> U32): nat {
    if tokens == [] then 0
    else Count(tokens[..|tokens| - 1], id, idOf) + if idOf(tokens[|tokens| - 1]) == id then 1 else 0
  }

  /** How many documents hold a token that hashes to `id`. */
  function DocumentFrequency(docs: seq<seq<string>>, id: U32, idOf: string -> U32): nat {
    if docs == [] then 0
    else
      DocumentFrequency(docs[..|docs| - 1], id, idOf) + if Count(docs[|docs| - 1], id, idOf) > 0 then 1 else 0
  }

  function TotalTokens(docs: seq<seq<string>>): nat {
    if docs == [] then 0 else TotalTokens(docs[..|docs| - 1]) + |docs[|docs| - 1]|
  }

  /** The positions at which a token hashes to `id`. */
  function Positions(tokens: seq<string>, id: U32, idOf: string -> U32): set<nat> {
    set i: nat | i < |tokens| && idOf(tokens[i]) == id
  }

  lemma {:induction false} CountIsPositions(tokens: seq<string>, id: U32, idOf: string -> U32)
    ensures Count(tokens, id, idOf) == |Positions(tokens, id, idOf)|
  {
    if tokens != [] {
      var init, n := tokens[..|tokens| - 1], |tokens| - 1;
      CountIsPositions(init, id, idOf);
      assert Positions(tokens, id, idOf) == Positions(init, id, idOf) + if idOf(tokens[n]) == id then {n} else {};
    } else {
      assert Positions(tokens, id, idOf) == {};
    }
  }

  /** The documents with a token that hashes to `id`. */
  function Holders(docs: seq<seq<string>>, id: U32, idOf: string -> U32): set<nat> {
    set i: nat | i < |docs| && exists t :: t in docs[i] && idOf(t) == id
  }

  lemma {:induction false} FrequencyIsHolders(docs: seq<seq<string>>, id: U32, idOf: string -> U32)
    ensures DocumentFrequency(docs, id, idOf) == |Holders(docs, id, idOf)|
  {
    if docs != [] {
      var init, n := docs[..|docs| - 1], |docs| - 1;
      FrequencyIsHolders(init, id, idOf);
      CountPresent(docs[n], id, idOf);
      assert Holders(docs, id, idOf) == Holders(init, id, idOf) + if Count(docs[n], id, idOf) > 0 then {n} else {};
    } else {
      assert Holders(docs, id, idOf) == {};
    }
  }

  function AllTokens(docs: seq<seq<string>>): seq<string> {
    if docs == [] then [] else AllTokens(docs[..|docs| - 1]) + docs[|docs| - 1]
  }

  lemma {:induction false} TotalIsAllTokens(docs: seq<seq<string>>)
    ensures TotalTokens(docs) == |AllTokens(docs)|
  {
    if docs != [] { TotalIsAllTokens(docs[..|docs| - 1]); }
  }

  /** The argument of the logarithm in the inverse document frequency. */
  function IdfArgument(n: nat, df: nat): real {
    ((n - df) as real + 0.5) / (df as real + 0.5) + 1.0
  }

  const K1 := 1.5
  const B := 0.75

  /** The weight of a term that occurs `count` times in a text of `dl` tokens. */
  function Weight(idf: real, count: nat, dl: real, avgdl: real): real
    requires avgdl > 0.0
  {
    var f := count as real;
    var denominator := f + K1 * (1.0 - B + B * (dl / avgdl));
    if denominator > 0.0 then idf * (f * (K1 + 1.0) / denominator) else 0.0
  }

  predicate Tallies(tf: map<U32, nat>, tokens: seq<string>, idOf: string -> U32) {
    (forall id | id in tf :: tf[id] == Count(tokens, id, idOf) > 0) &&
    (forall t | t in tokens :: idOf(t) in tf)
  }

  /** Entry counting: one pass over the tokens. */
  method Tally(tokens: seq<string>, idOf: string -> U32) returns (tf: map<U32, nat>)
    ensures Tallies(tf, tokens, idOf)
  {
    tf := map[];
    assert tokens[..0] == [];
    for i := 0 to |tokens|
      invariant Tallies(tf, tokens[..i], idOf)
    {
      var id := idOf(tokens[i]);
      assert tokens[..i + 1][..i] == tokens[..i];
      assert forall t :: t in tokens[..i + 1] <==> t in tokens[..i] || t == tokens[i];
      if id !in tf { CountAbsent(tokens[..i], id, idOf); }
      tf := tf[id := (if id in tf then tf[id] else 0) + 1];
    }
    assert tokens[..|tokens|] == tokens;
  }

  lemma {:induction false} CountAbsent(tokens: seq<string>, id: U32, idOf: string -> U32)
    requires forall t | t in tokens :: idOf(t) != id
    ensures Count(tokens, id, idOf) == 0
  {
    if tokens != [] {
      assert tokens[|tokens| - 1] in tokens;
      CountAbsent(tokens[..|tokens| - 1], id, idOf);
    }
  }

  lemma {:induction false} CountPresent(tokens: seq<string>, id: U32, idOf: string -> U32)
    ensures Count(tokens, id, idOf) > 0 <==> exists t :: t in tokens && idOf(t) == id
  {
    if tokens != [] {
      var last := tokens[|tokens| - 1];
      CountPresent(tokens[..|tokens| - 1], id, idOf);
      assert forall t :: t in tokens <==> t in tokens[..|tokens| - 1] || t == last;
    }
  }

  /** Insertion into an ascending sequence. */
  method InsertSorted(s: seq<U32>, x: U32) returns (r: seq<U32>)
    requires Ascending(s) && x !in s
    ensures Ascending(r)
    ensures forall id :: id in r <==> id == x || id in s
  {
    var i := 0;
    while i < |s| && s[i] < x
      invariant i <= |s|
      invariant forall k :: 0 <= k < i ==> s[k] < x
    {
      i := i + 1;
    }
    assert i < |s| ==> s[i] in s && s[i] > x;
    InsertedAscends(s[..i], x, s[i..]);
    assert s == s[..i] + s[i..];
    r := s[..i] + [x] + s[i..];
  }

  lemma {:induction false} InsertedAscends(low: seq<U32>, x: U32, high: seq<U32>)
    requires Ascending(low) && Ascending(high)
    requires forall k :: 0 <= k < |low| ==> low[k] < x
    requires high != [] ==> x < high[0]
    ensures Ascending(low + [x] + high)
    ensures forall id :: id in low + [x] + high <==> id == x || id in low + high
  {
    var r, n := low + [x] + high, |low|;
    forall i, j | 0 <= i < j < |r| ensures r[i] < r[j] {
      assert r[i] == if i < n then low[i] else if i == n then x else high[i - n - 1];
      assert r[j] == if j < n then low[j] else if j == n then x else high[j - n - 1];
      assert j > n ==> x < high[0] <= high[j - n - 1];
    }
  }

  /** Sorting the drained entries by id, whatever order the map gives them in. */
  method SortKeys(ids: set<U32>) returns (r: seq<U32>)
    ensures Ascending(r)
    ensures forall id :: id in r <==> id in ids
  {
    r := [];
    var rest := ids;
    while rest != {}
      invariant rest <= ids && Ascending(r)
      invariant forall id :: id in r <==> id in ids - rest
      decreases rest
    {
      var x :| x in rest;
      r := InsertSorted(r, x);
      rest := rest - {x};
    }
  }

  /** What an encoder knows and is given: the documents indexed so far and the logarithm. */
  function TermWeight(docs: seq<seq<string>>, idOf: string -> U32, ln: real -> real, tokens: seq<string>, id: U32,
                      avgdl: real): real
    requires avgdl > 0.0
  {
    Weight(ln(IdfArgument(|docs|, DocumentFrequency(docs, id, idOf))), Count(tokens, id, idOf), |tokens| as real, avgdl)
  }

  /** What `encode` promises: each id of the text once, in ascending order, with its BM25 weight. */
  predicate Encodes(v: SparseVector, docs: seq<seq<string>>, idOf: string -> U32, ln: real -> real, tokens: seq<string>,
                    avgdl: real)
    requires avgdl > 0.0
  {
    && Aligned(v) && Ascending(v.indices)
    && (forall id :: id in v.indices ==> Count(tokens, id, idOf) > 0)
    && (forall t | t in tokens :: idOf(t) in v.indices)
    && (forall k :: 0 <= k < |v.indices| ==> v.values[k] == TermWeight(docs, idOf, ln, tokens, v.indices[k], avgdl))
  }

  class Bm25Encoder {
    const idOf: string -> U32
    var df: map<U32, nat>
    var documents: nat
    var totalTokens: nat
    var avgdl: real
    ghost var docs: seq<seq<string>>

    ghost predicate Valid()
      reads this
    {
      && documents == |docs| && totalTokens == TotalTokens(docs) && avgdl >= 0.0
      && (forall id: U32 :: (if id in df then df[id] else 0) == DocumentFrequency(docs, id, idOf))
    }

    constructor (idOf: string -> U32)
      ensures Valid() && docs == [] && this.idOf == idOf && avgdl == 0.0
    {
      this.idOf := idOf;
      df, documents, totalTokens, avgdl, docs := map[], 0, 0, 0.0, [];
    }

    /** Every id of the document counts once, however often it occurs. */
    method IndexDocument(tokens: seq<string>)
      requires Valid()
      modifies this
      ensures Valid() && docs == old(docs) + [tokens] && avgdl == old(avgdl)
    {
      var seen := Tally(tokens, idOf);
      docs := docs + [tokens];
      ghost var earlier := df;
      df := map id | id in df.Keys + seen.Keys ::
        (if id in df then df[id] else 0) + (if id in seen then 1 else 0);
      documents := documents + 1;
      totalTokens := totalTokens + |tokens|;
      assert docs[..|docs| - 1] == old(docs);
      forall id: U32 ensures (if id in df then df[id] else 0) == DocumentFrequency(docs, id, idOf) {
        CountPresent(tokens, id, idOf);
        assert id in seen <==> Count(tokens, id, idOf) > 0;
        assert (if id in earlier then earlier[id] else 0) == DocumentFrequency(old(docs), id, idOf);
      }
    }

    method Finalize()
      requires Valid()
      modifies this
      ensures Valid() && docs == old(docs)
      ensures docs == [] ==> avgdl == 0.0
      ensures docs != [] ==> avgdl * |docs| as real == TotalTokens(docs) as real
    {
      avgdl := if documents == 0 then 0.0 else totalTokens as real / documents as real;
    }

    /** The weight of each entry, in the order of the sorted ids. */
    method Weigh(tokens: seq<string>, indices: seq<U32>, tf: map<U32, nat>, ln: real -> real, average: real)
      returns (values: seq<real>)
      requires Valid() && average > 0.0 && Tallies(tf, tokens, idOf)
      requires forall k :: 0 <= k < |indices| ==> indices[k] in tf
      ensures |values| == |indices|
      ensures forall k :: 0 <= k < |values| ==> values[k] == TermWeight(docs, idOf, ln, tokens, indices[k], average)
    {
      values := [];
      for k := 0 to |indices|
        invariant |values| == k
        invariant forall i :: 0 <= i < k ==> values[i] == TermWeight(docs, idOf, ln, tokens, indices[i], average)
      {
        var id := indices[k];
        var frequency := if id in df then df[id] else 0;
        var idf := ln(IdfArgument(documents, frequency));
        values := values + [Weight(idf, tf[id], |tokens| as real, average)];
      }
    }

    /** `ln` is the platform's logarithm. */
    method Encode(tokens: seq<string>, ln: real -> real) returns (v: SparseVector)
      requires Valid()
      ensures tokens == [] ==> v == SparseVector([], [])
      ensures tokens != [] ==>
                Encodes(v, docs, idOf, ln, tokens, if avgdl > 0.0 then avgdl else |tokens| as real)
    {
      if tokens == [] { return SparseVector([], []); }
      var average := if avgdl > 0.0 then avgdl else |tokens| as real;
      var tf := Tally(tokens, idOf);
      var indices := SortKeys(tf.Keys);
      assert forall k :: 0 <= k < |indices| ==> indices[k] in tf.Keys by {
        assert forall k :: 0 <= k < |indices| ==> indices[k] in indices;
      }
      var values := Weigh(tokens, indices, tf, ln, average);
      v := SparseVector(indices, values);
    }
  }

  lemma {:induction false} FrequencyIsBounded(docs: seq<seq<string>>, id: U32, idOf: string -> U32)
    ensures DocumentFrequency(docs, id, idOf) <= |docs|
  {
    if docs != [] { FrequencyIsBounded(docs[..|docs| - 1], id, idOf); }
  }

  /** The logarithm is always taken above one, however common the term. */
  lemma IdfIsPositive(docs: seq<seq<string>>, id: U32, idOf: string -> U32)
    ensures IdfArgument(|docs|, DocumentFrequency(docs, id, idOf)) > 1.0
  {
    FrequencyIsBounded(docs, id, idOf);
  }

  /** A term's weight in an encoded text; terms that do not occur weigh nothing. */
  lemma EncodedWeight(v: SparseVector, docs: seq<seq<string>>, idOf: string -> U32, ln: real -> real,
                      tokens: seq<string>, avgdl: real, id: U32)
    requires avgdl > 0.0 && Encodes(v, docs, idOf, ln, tokens, avgdl)
    ensures At(v, id) == if Count(tokens, id, idOf) > 0 then TermWeight(docs, idOf, ln, tokens, id, avgdl) else 0.0
  {
    if Count(tokens, id, idOf) > 0 {
      CountPresent(tokens, id, idOf);
      var k :| 0 <= k < |v.indices| && v.indices[k] == id;
      AtPosition(v, k);
    } else {
      AtAbsent(v, id);
    }
  }

  // ------------------------------------------------------ shape of the weight

  lemma {:induction false} Scaled(k: real, x: real, y: real)
    requires k > 0.0 && x < y
    ensures k * x < k * y
  {
    var gap := y - x;
    assert k * gap > 0.0;
    assert k * gap == k * y - k * x;
  }

  lemma {:induction false} Unscaled(k: real, x: real, y: real)
    requires k > 0.0 && k * x < k * y
    ensures x < y
  {
    if y < x { Scaled(k, y, x); }
  }

  lemma {:induction false} QuotientRestores(a: real, b: real)
    requires b > 0.0
    ensures b * (a / b) == a
  {
  }

  lemma {:induction false} QuotientIsPositive(a: real, b: real)
    requires a > 0.0 && b > 0.0
    ensures a / b > 0.0
  {
    QuotientRestores(a, b);
    Unscaled(b, 0.0, a / b);
  }

  lemma {:induction false} QuotientGrows(a: real, b: real, c: real)
    requires c > 0.0 && a < b
    ensures a / c < b / c
  {
    QuotientRestores(a, c);
    QuotientRestores(b, c);
    Unscaled(c, a / c, b / c);
  }

  lemma {:induction false} QuotientShrinks(a: real, b: real, c: real)
    requires a > 0.0 && 0.0 < b < c
    ensures 0.0 < a / c < a / b
  {
    var x, y := a / b, a / c;
    QuotientRestores(a, b);
    QuotientRestores(a, c);
    QuotientIsPositive(a, c);
    Scaled(y, b, c);
    assert b * y == y * b && c * y == y * c;
    Unscaled(b, y, x);
  }

  /** What the length of a text, against the average, adds to the denominator. */
  function Norm(dl: real, avgdl: real): real
    requires avgdl > 0.0
  {
    K1 * (1.0 - B + B * (dl / avgdl))
  }

  lemma {:induction false} NormGrows(a: real, b: real, avgdl: real)
    requires avgdl > 0.0 && 0.0 <= a < b
    ensures 0.0 < Norm(a, avgdl) < Norm(b, avgdl)
    ensures Norm(avgdl, avgdl) == K1
  {
    QuotientGrows(a, b, avgdl);
    if a > 0.0 { QuotientIsPositive(a, avgdl); } else { assert a / avgdl == 0.0; }
    QuotientRestores(avgdl, avgdl);
    assert avgdl / avgdl == 1.0;
  }

  /** The part of its limit that a term reaches at `f` occurrences. */
  function Share(f: real, norm: real): real
    requires f >= 0.0 && norm > 0.0
  {
    f * (K1 + 1.0) / (f + norm)
  }

  lemma {:induction false} WeightIsShare(idf: real, count: nat, dl: real, avgdl: real)
    requires avgdl > 0.0 && dl >= 0.0
    ensures Norm(dl, avgdl) > 0.0
    ensures Weight(idf, count, dl, avgdl) == idf * Share(count as real, Norm(dl, avgdl))
  {
    NormGrows(dl, dl + 1.0, avgdl);
  }

  /** What a term falls short of its limit by. */
  lemma {:induction false} ShareFallsShort(f: real, norm: real)
    requires f >= 0.0 && norm > 0.0
    ensures Share(f, norm) == K1 + 1.0 - norm * (K1 + 1.0) / (f + norm)
  {
    var d, top := f + norm, K1 + 1.0;
    var x, y := f * top / d, norm * top / d;
    QuotientRestores(f * top, d);
    QuotientRestores(norm * top, d);
    assert d * (x + y) == d * x + d * y == f * top + norm * top == d * top;
    if x + y < top { Scaled(d, x + y, top); }
    if top < x + y { Scaled(d, top, x + y); }
  }

  lemma {:induction false} ShareGrows(f: real, g: real, norm: real)
    requires 0.0 <= f < g && norm > 0.0
    ensures 0.0 <= Share(f, norm) < Share(g, norm) < K1 + 1.0
  {
    var short := norm * (K1 + 1.0);
    ShareFallsShort(f, norm);
    ShareFallsShort(g, norm);
    QuotientShrinks(short, f + norm, g + norm);
    if f > 0.0 { QuotientIsPositive(f * (K1 + 1.0), f + norm); } else { assert Share(f, norm) == 0.0; }
  }

  /** For a term that carries information, weight grows with the count, and stays below the limit. */
  lemma {:induction false} WeightGrowsWithCount(idf: real, m: nat, n: nat, dl: real, avgdl: real)
    requires idf > 0.0 && m < n && dl >= 0.0 && avgdl > 0.0
    ensures 0.0 <= Weight(idf, m, dl, avgdl) < Weight(idf, n, dl, avgdl) < idf * (K1 + 1.0)
  {
    WeightIsShare(idf, m, dl, avgdl);
    WeightIsShare(idf, n, dl, avgdl);
    var x, y := Share(m as real, Norm(dl, avgdl)), Share(n as real, Norm(dl, avgdl));
    ShareGrows(m as real, n as real, Norm(dl, avgdl));
    Scaled(idf, x, y);
    Scaled(idf, y, K1 + 1.0);
    if x > 0.0 { Scaled(idf, 0.0, x); }
  }

  /** The same count weighs less in a longer text, and one occurrence in a text of average length
      weighs exactly the inverse document frequency. */
  lemma {:induction false} WeightFallsWithLength(idf: real, n: nat, a: real, b: real, avgdl: real)
    requires idf > 0.0 && n > 0 && 0.0 <= a < b && avgdl > 0.0
    ensures Weight(idf, n, b, avgdl) < Weight(idf, n, a, avgdl)
    ensures Weight(idf, 1, avgdl, avgdl) == idf
  {
    WeightIsShare(idf, n, a, avgdl);
    WeightIsShare(idf, n, b, avgdl);
    WeightIsShare(idf, 1, avgdl, avgdl);
    NormGrows(a, b, avgdl);
    var f := n as real;
    QuotientShrinks(f * (K1 + 1.0), f + Norm(a, avgdl), f + Norm(b, avgdl));
    Scaled(idf, Share(f, Norm(b, avgdl)), Share(f, Norm(a, avgdl)));
    assert Share(1.0, K1) == 1.0;
  }

  /** Rarer terms carry more information: the argument of the logarithm falls with the number of
      documents that hold the term. */
  lemma {:induction false} IdfFallsWithFrequency(n: nat, df: nat, more: nat)
    requires df < more <= n
    ensures IdfArgument(n, more) < IdfArgument(n, df)
  {
    var x, y := (n - df) as real + 0.5, (n - more) as real + 0.5;
    var b, c := df as real + 0.5, more as real + 0.5;
    QuotientShrinks(x, b, c);
    QuotientGrows(y, x, c);
  }

  /** There is only one such vector, so the map's iteration order never shows. */
  lemma {:induction false} EncodingIsUnique(v: SparseVector, w: SparseVector, docs: seq<seq<string>>,
                                            idOf: string -> U32, ln: real -> real, tokens: seq<string>, avgdl: real)
    requires avgdl > 0.0 && Encodes(v, docs, idOf, ln, tokens, avgdl) && Encodes(w, docs, idOf, ln, tokens, avgdl)
    ensures v == w
  {
    forall id ensures id in v.indices <==> id in w.indices {
      CountPresent(tokens, id, idOf);
    }
    SameMembersSameOrder(v.indices, w.indices);
  }

  /** Scoring a query against a document: encoded vectors meet what `dot` asks for, so the loop gives
      the sum over shared ids. */
  lemma EncodedDotIsTheSum(v: SparseVector, w: SparseVector, docs: seq<seq<string>>, idOf: string -> U32,
                           ln: real -> real, query: seq<string>, text: seq<string>, avgdl: real)
    requires avgdl > 0.0 && Encodes(v, docs, idOf, ln, query, avgdl) && Encodes(w, docs, idOf, ln, text, avgdl)
    ensures Merged(v, w, 0, 0) == SumOfProducts(v, w, 0) == SumOfProducts(w, v, 0)
  {
    DotIsTheSum(v, w);
  }

  lemma {:induction false} SameMembersSameOrder(s: seq<U32>, t: seq<U32>)
    requires Ascending(s) && Ascending(t) && forall id :: id in s <==> id in t
    ensures s == t
    decreases |s|
  {
    if s + t != [] {
      var first := (s + t)[0];
      assert first in s && first in t;
      assert s[0] in t && t[0] in s;
      forall id ensures id in s[1..] <==> id in t[1..] {
        assert id in s <==> id == s[0] || id in s[1..];
        assert id in t <==> id == t[0] || id in t[1..];
      }
      SameMembersSameOrder(s[1..], t[1..]);
    }
  }
}
