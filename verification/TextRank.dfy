/** Okapi BM25 over an inverted index, against the same score taken document by document.
    Arithmetic is over the reals; documents are given as their tokens; the logarithm is any
    function that is positive above 1. */
module TextRank {
  type Doc = seq<string>

  const K1: real := 1.2
  const B: real := 0.75

  ghost predicate LogLike(ln: real -> real) {
    forall x: real :: x > 1.0 ==> ln(x) > 0.0
  }

  function Max(x: real, y: real): real { if x > y then x else y }

  // ------------------------------------------------------- document by document

  /** How often `t` occurs. */
  function Tf(toks: Doc, t: string): nat {
    if toks == [] then 0 else Tf(toks[..|toks| - 1], t) + if toks[|toks| - 1] == t then 1 else 0
  }

  /** In how many documents `t` occurs. */
  function Df(docs: seq<Doc>, t: string): (n: nat)
    ensures n <= |docs|
  {
    if docs == [] then 0 else Df(docs[..|docs| - 1], t) + if Tf(docs[|docs| - 1], t) > 0 then 1 else 0
  }

  function Total(docs: seq<Doc>): nat {
    if docs == [] then 0 else Total(docs[..|docs| - 1]) + |docs[|docs| - 1]|
  }

  function IdfOf(n: nat, df: nat, ln: real -> real): real {
    ln(1.0 + (n as real - df as real + 0.5) / (df as real + 0.5))
  }

  function Idf(docs: seq<Doc>, t: string, ln: real -> real): real {
    IdfOf(|docs|, Df(docs, t), ln)
  }

  function NormOf(len: nat, avg: real): real {
    K1 * (1.0 - B + B * len as real / Max(avg, 0.000000001))
  }

  function Norm(docs: seq<Doc>, i: nat): real
    requires i < |docs|
  {
    NormOf(|docs[i]|, Total(docs) as real / |docs| as real)
  }

  /** What a term of weight `w` adds to a document that has it `tf` times. */
  function Part(w: real, tf: real, norm: real): real
    requires tf >= 0.0 && norm > 0.0
  {
    w * tf * (K1 + 1.0) / (tf + norm)
  }

  /** The distinct terms of a query, by first occurrence. */
  function Order(query: Doc): seq<string> {
    if query == [] then [] else
      var init, t := query[..|query| - 1], query[|query| - 1];
      Order(init) + if Tf(init, t) == 0 then [t] else []
  }

  lemma NormIsPositive(len: nat, avg: real)
    ensures NormOf(len, avg) > 0.0
  {
    var m := Max(avg, 0.000000001);
    assert B * len as real / m >= 0.0;
  }

  /** What term `t` of the query adds to document `i`. */
  function TermScore(docs: seq<Doc>, ln: real -> real, query: Doc, t: string, i: nat): real
    requires i < |docs|
  {
    NormIsPositive(|docs[i]|, Total(docs) as real / |docs| as real);
    Part(Tf(query, t) as real * Idf(docs, t, ln), Tf(docs[i], t) as real, Norm(docs, i))
  }

  /** The score of document `i` from the first `k` terms of the query. */
  function Direct(docs: seq<Doc>, ln: real -> real, query: Doc, i: nat, k: nat): real
    requires i < |docs| && k <= |Order(query)|
  {
    if k == 0 then 0.0 else
      Direct(docs, ln, query, i, k - 1) + TermScore(docs, ln, query, Order(query)[k - 1], i)
  }

  /** The BM25 score of document `i`. */
  function Score(docs: seq<Doc>, ln: real -> real, query: Doc, i: nat): real
    requires i < |docs|
  {
    Direct(docs, ln, query, i, |Order(query)|)
  }

  // --------------------------------------------------------- what it means

  lemma IdfIsPositive(n: nat, df: nat, ln: real -> real)
    requires LogLike(ln) && df <= n
    ensures IdfOf(n, df, ln) > 0.0
  {
    var x := (n as real - df as real + 0.5) / (df as real + 0.5);
    assert x > 0.0;
    assert 1.0 + x > 1.0;
  }

  lemma PartSign(w: real, tf: real, norm: real)
    requires tf >= 0.0 && norm > 0.0 && w > 0.0
    ensures Part(w, tf, norm) >= 0.0 && (Part(w, tf, norm) == 0.0 <==> tf == 0.0)
  {
    if tf > 0.0 {
      assert w * tf > 0.0;
      assert w * tf * (K1 + 1.0) > 0.0;
    }
  }

  lemma {:induction false} TfPositive(toks: Doc, t: string)
    ensures Tf(toks, t) > 0 <==> t in toks
  {
    if toks != [] {
      TfPositive(toks[..|toks| - 1], t);
      assert toks == toks[..|toks| - 1] + [toks[|toks| - 1]];
    }
  }

  lemma {:induction false} OrderMembers(query: Doc, t: string)
    ensures t in Order(query) <==> t in query
  {
    if query != [] {
      var init, last := query[..|query| - 1], query[|query| - 1];
      OrderMembers(init, t);
      TfPositive(init, last);
      assert query == init + [last];
    }
  }

  lemma ProductIsPositive(x: real, y: real)
    requires x > 0.0 && y > 0.0
    ensures x * y > 0.0
  {
  }

  lemma TermSign(docs: seq<Doc>, ln: real -> real, query: Doc, i: nat, t: string)
    requires i < |docs| && LogLike(ln) && t in query
    ensures TermScore(docs, ln, query, t, i) >= 0.0
    ensures TermScore(docs, ln, query, t, i) == 0.0 <==> t !in docs[i]
  {
    TfPositive(query, t);
    TfPositive(docs[i], t);
    IdfIsPositive(|docs|, Df(docs, t), ln);
    NormIsPositive(|docs[i]|, Total(docs) as real / |docs| as real);
    ProductIsPositive(Tf(query, t) as real, Idf(docs, t, ln));
    PartSign(Tf(query, t) as real * Idf(docs, t, ln), Tf(docs[i], t) as real, Norm(docs, i));
  }

  lemma {:induction false} DirectSign(docs: seq<Doc>, ln: real -> real, query: Doc, i: nat, k: nat)
    requires i < |docs| && k <= |Order(query)| && LogLike(ln)
    ensures Direct(docs, ln, query, i, k) >= 0.0
    ensures Direct(docs, ln, query, i, k) == 0.0 <==> forall j :: 0 <= j < k ==> Order(query)[j] !in docs[i]
  {
    if k > 0 {
      DirectSign(docs, ln, query, i, k - 1);
      OrderMembers(query, Order(query)[k - 1]);
      TermSign(docs, ln, query, i, Order(query)[k - 1]);
    }
  }

  /** A score is zero exactly when document and query share no token, and positive
      otherwise. */
  lemma ZeroIffNothingShared(docs: seq<Doc>, ln: real -> real, query: Doc, i: nat)
    requires i < |docs| && LogLike(ln)
    ensures Score(docs, ln, query, i) >= 0.0
    ensures Score(docs, ln, query, i) == 0.0 <==> forall t :: t in query ==> t !in docs[i]
  {
    DirectSign(docs, ln, query, i, |Order(query)|);
    forall t ensures t in Order(query) <==> t in query { OrderMembers(query, t); }
  }

  // ---------------------------------------------------------------- the index

  datatype Posting = Posting(doc: nat, tf: real)

  datatype Index = Index(postings: map<string, seq<Posting>>, idf: map<string, real>, norm: seq<real>)

  /** The posting list of `t`. */
  function Postings(docs: seq<Doc>, t: string): seq<Posting> {
    if docs == [] then [] else
      var n := |docs| - 1;
      Postings(docs[..n], t) + if Tf(docs[n], t) > 0 then [Posting(n, Tf(docs[n], t) as real)] else []
  }

  /** A map that answers an absent key with the empty list, as Go's does. */
  function Get(postings: map<string, seq<Posting>>, t: string): seq<Posting> {
    if t in postings then postings[t] else []
  }

  ghost predicate Indexed(postings: map<string, seq<Posting>>, docs: seq<Doc>) {
    forall t :: Get(postings, t) == Postings(docs, t)
  }

  ghost predicate IsIndex(ix: Index, docs: seq<Doc>, ln: real -> real) {
    && Indexed(ix.postings, docs)
    && (forall t :: t in ix.postings ==> t in ix.idf && ix.idf[t] == Idf(docs, t, ln))
    && |ix.norm| == |docs| && forall i :: 0 <= i < |docs| ==> ix.norm[i] == Norm(docs, i)
  }

  lemma {:induction false} PostingsCount(docs: seq<Doc>, t: string)
    ensures |Postings(docs, t)| == Df(docs, t)
  {
    if docs != [] { PostingsCount(docs[..|docs| - 1], t); }
  }

  type Counts = map<string, nat>

  function Count(tf: Counts, t: string): nat { if t in tf then tf[t] else 0 }

  ghost predicate Counted(tf: Counts, toks: Doc) {
    forall t :: Count(tf, t) == Tf(toks, t) && (t in tf <==> Tf(toks, t) > 0)
  }

  lemma CountStep(tf: Counts, toks: Doc, t: string)
    requires Counted(tf, toks)
    ensures Counted(tf[t := Count(tf, t) + 1], toks + [t])
  {
    assert (toks + [t])[..|toks|] == toks;
  }

  /** The lists of `docs`, and an open posting of document `i` for each of `keys`. */
  ghost predicate Open(postings: map<string, seq<Posting>>, docs: seq<Doc>, i: nat, keys: set<string>) {
    forall t :: Get(postings, t) == Postings(docs, t) + if t in keys then [Posting(i, 0.0)] else []
  }

  ghost predicate Filled(postings: map<string, seq<Posting>>, docs: seq<Doc>, i: nat, tf: Counts) {
    forall t :: Get(postings, t) == Postings(docs, t) + if t in tf then [Posting(i, tf[t] as real)] else []
  }

  lemma OpenStep(postings: map<string, seq<Posting>>, docs: seq<Doc>, i: nat, keys: set<string>, t: string)
    requires Open(postings, docs, i, keys) && t !in keys
    ensures Open(postings[t := Get(postings, t) + [Posting(i, 0.0)]], docs, i, keys + {t})
  {
  }

  lemma Closed(postings: map<string, seq<Posting>>, docs: seq<Doc>, toks: Doc, tf: Counts)
    requires Counted(tf, toks)
    requires Filled(postings, docs, |docs|, tf)
    ensures Indexed(postings, docs + [toks])
  {
    assert (docs + [toks])[..|docs|] == docs;
    assert forall t :: t in tf ==> tf[t] == Count(tf, t);
  }

  /** One token of document `i`: its first occurrence opens a posting. */
  method AddToken(postings0: map<string, seq<Posting>>, tf0: Counts, i: nat, t: string, ghost docs: seq<Doc>,
          ghost seen: Doc)
    returns (postings: map<string, seq<Posting>>, tf: Counts)
    requires Counted(tf0, seen) && Open(postings0, docs, i, tf0.Keys)
    ensures Counted(tf, seen + [t]) && Open(postings, docs, i, tf.Keys)
  {
    CountStep(tf0, seen, t);
    postings, tf := postings0, tf0[t := Count(tf0, t) + 1];
    if Count(tf0, t) == 0 {
      OpenStep(postings0, docs, i, tf0.Keys, t);
      postings := postings0[t := Get(postings0, t) + [Posting(i, 0.0)]];
      assert tf.Keys == tf0.Keys + {t};
    } else {
      assert tf.Keys == tf0.Keys;
    }
  }

  method AddTokens(postings0: map<string, seq<Posting>>, ghost docs: seq<Doc>, i: nat, toks: Doc)
    returns (postings: map<string, seq<Posting>>, tf: Counts)
    requires Open(postings0, docs, i, {})
    ensures Counted(tf, toks) && Open(postings, docs, i, tf.Keys)
  {
    postings, tf := postings0, map[];
    assert tf.Keys == {};
    var j := 0;
    while j < |toks|
      invariant 0 <= j <= |toks| && Counted(tf, toks[..j]) && Open(postings, docs, i, tf.Keys)
    {
      postings, tf := AddToken(postings, tf, i, toks[j], docs, toks[..j]);
      assert toks[..j + 1] == toks[..j] + [toks[j]];
      j := j + 1;
    }
    assert toks[..j] == toks;
  }

  /** The tokens of one document, and at last their counts. */
  method AddDoc(postings0: map<string, seq<Posting>>, ghost docs: seq<Doc>, i: nat, toks: Doc)
    returns (postings: map<string, seq<Posting>>)
    requires Indexed(postings0, docs) && i == |docs|
    ensures Indexed(postings, docs + [toks])
  {
    var tf;
    postings, tf := AddTokens(postings0, docs, i, toks);
    postings := FillCounts(postings, docs, i, tf);
    Closed(postings, docs, toks, tf);
  }

  method FillCounts(postings0: map<string, seq<Posting>>, ghost docs: seq<Doc>, i: nat, tf: Counts)
    returns (postings: map<string, seq<Posting>>)
    requires Open(postings0, docs, i, tf.Keys)
    ensures Filled(postings, docs, i, tf)
  {
    postings := postings0;
    var rest := tf.Keys;
    while rest != {}
      invariant rest <= tf.Keys
      invariant forall t ::
        Get(postings, t)
        == Postings(docs, t) + if t in tf then [Posting(i, if t in rest then 0.0 else tf[t] as real)] else []
      decreases rest
    {
      var t :| t in rest;
      var p := Get(postings, t);
      ghost var before := Postings(docs, t);
      assert p[|p| - 1 := Posting(i, tf[t] as real)] == before + [Posting(i, tf[t] as real)];
      postings := postings[t := p[|p| - 1 := Posting(i, tf[t] as real)]];
      rest := rest - {t};
    }
  }

  method AddDocs(docs: seq<Doc>) returns (postings: map<string, seq<Posting>>, lens: seq<nat>, total: nat)
    ensures Indexed(postings, docs) && (docs == [] ==> postings == map[])
    ensures |lens| == |docs| && (forall k :: 0 <= k < |docs| ==> lens[k] == |docs[k]|) && total == Total(docs)
  {
    postings, lens, total := map[], [], 0;
    var i := 0;
    while i < |docs|
      invariant 0 <= i <= |docs| && Indexed(postings, docs[..i]) && (i == 0 ==> postings == map[])
      invariant |lens| == i && (forall k :: 0 <= k < i ==> lens[k] == |docs[k]|) && total == Total(docs[..i])
    {
      postings := AddDoc(postings, docs[..i], i, docs[i]);
      assert docs[..i + 1] == docs[..i] + [docs[i]] && docs[..i + 1][..i] == docs[..i];
      lens, total := lens + [|docs[i]|], total + |docs[i]|;
      i := i + 1;
    }
    assert docs[..i] == docs;
  }

  method Norms(lens: seq<nat>, avg: real) returns (norm: seq<real>)
    ensures |norm| == |lens| && forall k :: 0 <= k < |lens| ==> norm[k] == NormOf(lens[k], avg)
  {
    norm := [];
    var i := 0;
    while i < |lens|
      invariant 0 <= i <= |lens| && |norm| == i && forall k :: 0 <= k < i ==> norm[k] == NormOf(lens[k], avg)
    {
      norm := norm + [NormOf(lens[i], avg)];
      i := i + 1;
    }
  }

  method NewBM25(docs: seq<Doc>, ln: real -> real) returns (ix: Index)
    ensures IsIndex(ix, docs, ln)
  {
    var postings, lens, total := AddDocs(docs);
    if docs == [] { return Index(postings, map[], []); }
    var norm := Norms(lens, total as real / |docs| as real);
    var idf: map<string, real> := map t | t in postings :: IdfOf(|docs|, |postings[t]|, ln);
    forall t | t in postings ensures idf[t] == Idf(docs, t, ln) {
      PostingsCount(docs, t);
      assert Get(postings, t) == postings[t];
    }
    ix := Index(postings, idf, norm);
  }

  // --------------------------------------------------------------- the query

  /** The posting of document `i`, if the list has one. */
  function TfIn(list: seq<Posting>, i: nat, n: nat): real
    requires n <= |list|
  {
    if n == 0 then 0.0 else if list[n - 1].doc == i then list[n - 1].tf else TfIn(list, i, n - 1)
  }

  lemma {:induction false} PostingsDocs(docs: seq<Doc>, t: string)
    ensures forall k ::
      0 <= k < |Postings(docs, t)| ==> Postings(docs, t)[k].doc < |docs| && Postings(docs, t)[k].tf > 0.0
    ensures forall j, k :: 0 <= j < k < |Postings(docs, t)| ==> Postings(docs, t)[j].doc < Postings(docs, t)[k].doc
  {
    if docs != [] { PostingsDocs(docs[..|docs| - 1], t); }
  }

  /** A posting list says of every document how often it has the term. */
  lemma {:induction false} PostingsTf(docs: seq<Doc>, t: string, i: nat)
    requires i < |docs|
    ensures TfIn(Postings(docs, t), i, |Postings(docs, t)|) == Tf(docs[i], t) as real
  {
    var n := |docs| - 1;
    var list, before := Postings(docs, t), Postings(docs[..n], t);
    PostingsDocs(docs[..n], t);
    TfInPrefix(before, list, i, |before|);
    if i < n {
      PostingsTf(docs[..n], t, i);
    } else {
      TfInNone(before, i, |before|);
    }
  }

  lemma {:induction false} TfInPrefix(before: seq<Posting>, list: seq<Posting>, i: nat, n: nat)
    requires n <= |before| && before <= list
    ensures TfIn(list, i, n) == TfIn(before, i, n)
  {
    if n > 0 { TfInPrefix(before, list, i, n - 1); }
  }

  lemma {:induction false} TfInNone(list: seq<Posting>, i: nat, n: nat)
    requires n <= |list| && forall k :: 0 <= k < n ==> list[k].doc != i
    ensures TfIn(list, i, n) == 0.0
  {
    if n > 0 { TfInNone(list, i, n - 1); }
  }

  lemma {:induction false} TfInIsCount(list: seq<Posting>, i: nat, n: nat)
    requires n <= |list| && forall k :: 0 <= k < |list| ==> list[k].tf > 0.0
    ensures TfIn(list, i, n) >= 0.0
  {
    if n > 0 { TfInIsCount(list, i, n - 1); }
  }

  predicate PositiveNorms(norm: seq<real>) {
    forall i :: 0 <= i < |norm| ==> norm[i] > 0.0
  }

  predicate ListOk(list: seq<Posting>, n: nat) {
    && (forall k :: 0 <= k < |list| ==> list[k].doc < n && list[k].tf > 0.0)
    && forall j, k :: 0 <= j < k < |list| ==> list[j].doc < list[k].doc
  }

  lemma NoPart(w: real, norm: real)
    requires norm > 0.0
    ensures Part(w, 0.0, norm) == 0.0
  {
  }

  /** The inner loop: one term's postings. */
  method AddTerm(s: array<real>, w: real, list: seq<Posting>, norm: seq<real>)
    requires s.Length == |norm| && ListOk(list, |norm|) && PositiveNorms(norm)
    modifies s
    ensures forall i :: 0 <= i < |norm| ==> TfIn(list, i, |list|) >= 0.0
    ensures forall i :: 0 <= i < |norm| ==> s[i] == old(s[i]) + Part(w, TfIn(list, i, |list|), norm[i])
  {
    forall i, n | 0 <= i < |norm| && 0 <= n <= |list| ensures TfIn(list, i, n) >= 0.0 { TfInIsCount(list, i, n); }
    var k := 0;
    forall i | 0 <= i < |norm| ensures Part(w, TfIn(list, i, 0), norm[i]) == 0.0 { NoPart(w, norm[i]); }
    while k < |list|
      invariant 0 <= k <= |list|
      invariant forall i :: 0 <= i < |norm| ==> s[i] == old(s[i]) + Part(w, TfIn(list, i, k), norm[i])
    {
      var p := list[k];
      TfInNone(list, p.doc, k);
      NoPart(w, norm[p.doc]);
      s[p.doc] := s[p.doc] + w * p.tf * (K1 + 1.0) / (p.tf + norm[p.doc]);
      k := k + 1;
    }
  }

  method CountQuery(query: Doc) returns (qtf: Counts, order: seq<string>)
    ensures Counted(qtf, query) && order == Order(query)
  {
    qtf, order := map[], [];
    var j := 0;
    while j < |query|
      invariant 0 <= j <= |query| && Counted(qtf, query[..j]) && order == Order(query[..j])
    {
      var t := query[j];
      assert query[..j + 1] == query[..j] + [t] && query[..j + 1][..j] == query[..j];
      CountStep(qtf, query[..j], t);
      if Count(qtf, t) == 0 { order := order + [t]; }
      qtf := qtf[t := Count(qtf, t) + 1];
      j := j + 1;
    }
    assert query[..j] == query;
  }

  /** The weight the index gives a query term. */
  function WeightIn(ix: Index, query: Doc, t: string): real {
    Tf(query, t) as real * if t in ix.idf then ix.idf[t] else 0.0
  }

  lemma PartsAgree(w: real, v: real, tf: real, norm: real)
    requires tf >= 0.0 && norm > 0.0 && (tf > 0.0 ==> w == v)
    ensures Part(w, tf, norm) == Part(v, tf, norm)
  {
    if tf == 0.0 {
      NoPart(w, norm);
      NoPart(v, norm);
    }
  }

  lemma TermAgreesAt(query: Doc, docs: seq<Doc>, ln: real -> real, i: nat, t: string, w: real)
    requires i < |docs| && (Tf(docs[i], t) > 0 ==> w == Tf(query, t) as real * Idf(docs, t, ln))
    ensures Norm(docs, i) > 0.0 && Part(w, Tf(docs[i], t) as real, Norm(docs, i)) == TermScore(docs, ln, query, t, i)
  {
    NormIsPositive(|docs[i]|, Total(docs) as real / |docs| as real);
    PartsAgree(w, Tf(query, t) as real * Idf(docs, t, ln), Tf(docs[i], t) as real, Norm(docs, i));
  }

  lemma WeightAgrees(ix: Index, query: Doc, docs: seq<Doc>, ln: real -> real, i: nat, t: string)
    requires IsIndex(ix, docs, ln) && i < |docs| && Tf(docs[i], t) > 0
    ensures WeightIn(ix, query, t) == Tf(query, t) as real * Idf(docs, t, ln)
  {
    PostingsTf(docs, t, i);
    assert Get(ix.postings, t) == Postings(docs, t);
    assert t in ix.postings;
  }

  lemma TermAgrees(ix: Index, query: Doc, docs: seq<Doc>, ln: real -> real, i: nat, t: string)
    requires IsIndex(ix, docs, ln) && i < |docs| && ix.norm[i] > 0.0
    requires TfIn(Postings(docs, t), i, |Postings(docs, t)|) >= 0.0
    ensures var tf := TfIn(Postings(docs, t), i, |Postings(docs, t)|);
            Part(WeightIn(ix, query, t), tf, ix.norm[i]) == TermScore(docs, ln, query, t, i)
  {
    PostingsTf(docs, t, i);
    if Tf(docs[i], t) > 0 { WeightAgrees(ix, query, docs, ln, i, t); }
    TermAgreesAt(query, docs, ln, i, t, WeightIn(ix, query, t));
  }

  method ScoreTerm(s: array<real>, ix: Index, query: Doc, w: real, k: nat, ghost docs: seq<Doc>, ghost ln: real -> real)
    requires IsIndex(ix, docs, ln) && PositiveNorms(ix.norm) && s.Length == |docs| && k < |Order(query)|
    requires w == WeightIn(ix, query, Order(query)[k])
    requires forall i :: 0 <= i < |docs| ==> s[i] == Direct(docs, ln, query, i, k)
    modifies s
    ensures forall i :: 0 <= i < |docs| ==> s[i] == Direct(docs, ln, query, i, k + 1)
  {
    var t := Order(query)[k];
    PostingsDocs(docs, t);
    assert Get(ix.postings, t) == Postings(docs, t);
    AddTerm(s, w, Get(ix.postings, t), ix.norm);
    forall i | 0 <= i < |docs|
      ensures s[i] == Direct(docs, ln, query, i, k + 1)
    {
      TermAgrees(ix, query, docs, ln, i, t);
    }
  }

  lemma NormsArePositive(ix: Index, docs: seq<Doc>, ln: real -> real)
    requires IsIndex(ix, docs, ln)
    ensures PositiveNorms(ix.norm)
  {
    forall i | 0 <= i < |docs|
      ensures ix.norm[i] > 0.0
    {
      NormIsPositive(|docs[i]|, Total(docs) as real / |docs| as real);
    }
  }

  /** `Scores`: one score per document, by the posting lists of the query's terms. */
  method Scores(ix: Index, query: Doc, ghost docs: seq<Doc>, ghost ln: real -> real) returns (s: array<real>)
    requires IsIndex(ix, docs, ln)
    ensures fresh(s) && s.Length == |docs|
    ensures forall i :: 0 <= i < |docs| ==> s[i] == Score(docs, ln, query, i)
  {
    s := new real[|ix.norm|](_ => 0.0);
    var qtf, order := CountQuery(query);
    NormsArePositive(ix, docs, ln);
    var k := 0;
    while k < |order|
      invariant 0 <= k <= |order|
      invariant forall i :: 0 <= i < |docs| ==> s[i] == Direct(docs, ln, query, i, k)
    {
      var t := order[k];
      assert Count(qtf, t) == Tf(query, t);
      ScoreTerm(s, ix, query, Count(qtf, t) as real * (if t in ix.idf then ix.idf[t] else 0.0), k, docs, ln);
      k := k + 1;
    }
  }
}
