/** What the BM25 score rewards: rare terms, many occurrences, short documents. */
module RankingLaws {
  import opened TextRank

  ghost predicate Increasing(ln: real -> real) {
    forall x: real, y: real :: 0.0 < x < y ==> ln(x) < ln(y)
  }

  /** A term in `df` of `n` documents weighs the logarithm of (n + 1) / (df + 1/2). */
  lemma IdfIs(n: nat, df: nat, ln: real -> real)
    requires df <= n
    ensures IdfOf(n, df, ln) == ln((n as real + 1.0) / (df as real + 0.5))
  {
    var d := df as real + 0.5;
    AddQuotients(d, n as real - df as real + 0.5, d);
    assert d / d == 1.0;
  }

  lemma AddQuotients(a: real, b: real, d: real)
    requires d > 0.0
    ensures a / d + b / d == (a + b) / d
  {
  }

  /** A larger divisor gives a smaller quotient. */
  lemma LargerDivisor(a: real, b: real, c: real)
    requires a >= 0.0 && 0.0 < b <= c
    ensures 0.0 <= a / c <= a / b
    ensures a > 0.0 && b < c ==> a / c < a / b
  {
    var x, y := a / b, a / c;
    assert x * b == a && y * c == a;
    if y > x {
      ProductKeepsOrder(x, b, c);
      ProductIsPositive(y - x, c);
    }
    assert y * c - y * b == y * (c - b);
    if a > 0.0 && b < c { ProductIsPositive(y, c - b); }
  }

  /** The rarer of two terms weighs more. */
  lemma RarerWeighsMore(docs: seq<Doc>, ln: real -> real, s: string, t: string)
    requires Increasing(ln) && Df(docs, s) < Df(docs, t)
    ensures Idf(docs, s, ln) > Idf(docs, t, ln)
  {
    var n, a, b := |docs| as real + 1.0, Df(docs, s) as real + 0.5, Df(docs, t) as real + 0.5;
    IdfIs(|docs|, Df(docs, s), ln);
    IdfIs(|docs|, Df(docs, t), ln);
    LargerDivisor(n, a, b);
  }

  /** A document of average length has the norm `K1`, an empty one the share `1 - B` of it, and
      in between and beyond the norm grows evenly with the length. */
  lemma NormIs(len: nat, avg: real)
    requires avg > 0.000000001
    ensures NormOf(0, avg) == K1 * (1.0 - B)
    ensures len as real == avg ==> NormOf(len, avg) == K1
    ensures NormOf(len, avg) - NormOf(0, avg) == K1 * B * (len as real / avg)
  {
    assert Max(avg, 0.000000001) == avg;
    assert 0 as real / avg == 0.0;
    assert B * 0.0 / avg == 0.0 && B * len as real / avg == B * (len as real / avg);
    assert len as real == avg ==> len as real / avg == 1.0;
  }

  lemma NormGrows(m: nat, n: nat, avg: real)
    requires m <= n
    ensures NormOf(m, avg) <= NormOf(n, avg)
  {
    var d := Max(avg, 0.000000001);
    assert d > 0.0;
    QuotientKeepsOrder(B * m as real, B * n as real, d);
  }

  lemma QuotientKeepsOrder(a: real, b: real, d: real)
    requires a <= b && d > 0.0
    ensures a / d <= b / d
  {
    assert b / d - a / d == (b - a) / d;
  }

  /** What a term adds grows with its count, falls with the norm, and stays below `w (K1 + 1)`. */
  lemma PartKeepsOrder(w: real, tf: real, more: real, norm: real, less: real)
    requires w >= 0.0 && 0.0 <= tf <= more && 0.0 < less <= norm
    ensures Part(w, tf, norm) <= Part(w, more, less)
  {
    Saturates(tf, more, norm, less);
    var a, b := tf / (tf + norm), more / (more + less);
    var c := w * (K1 + 1.0);
    assert c >= 0.0;
    ProductKeepsOrder(c, a, b);
    PartIs(w, tf, norm);
    PartIs(w, more, less);
  }

  lemma PartIs(w: real, tf: real, norm: real)
    requires tf >= 0.0 && norm > 0.0
    ensures Part(w, tf, norm) == (w * (K1 + 1.0)) * (tf / (tf + norm))
    ensures 0.0 <= tf / (tf + norm) < 1.0
  {
    var c, d := w * (K1 + 1.0), tf + norm;
    assert w * tf * (K1 + 1.0) == c * tf;
    assert (c * tf) / d == c * (tf / d);
    Shares(tf, norm);
    assert norm / d > 0.0;
  }

  lemma ProductKeepsOrder(c: real, a: real, b: real)
    requires c >= 0.0 && a <= b
    ensures c * a <= c * b
  {
    assert c * (b - a) >= 0.0;
  }

  lemma Shares(a: real, b: real)
    requires a >= 0.0 && b > 0.0
    ensures a / (a + b) == 1.0 - b / (a + b)
  {
    AddQuotients(a, b, a + b);
    assert (a + b) / (a + b) == 1.0;
  }

  lemma Saturates(tf: real, more: real, norm: real, less: real)
    requires 0.0 <= tf <= more && 0.0 < less <= norm
    ensures tf / (tf + norm) <= more / (more + less)
  {
    LargerDivisor(norm, tf + norm, more + norm);
    Shares(tf, norm);
    Shares(more, norm);
    LargerDivisor(more, more + less, more + norm);
  }

  lemma TermKeepsOrder(docs: seq<Doc>, ln: real -> real, query: Doc, t: string, i: nat, j: nat)
    requires i < |docs| && j < |docs| && LogLike(ln) && t in query
    requires |docs[j]| <= |docs[i]| && Tf(docs[i], t) <= Tf(docs[j], t)
    ensures TermScore(docs, ln, query, t, i) <= TermScore(docs, ln, query, t, j)
  {
    var avg := Total(docs) as real / |docs| as real;
    NormIsPositive(|docs[i]|, avg);
    NormIsPositive(|docs[j]|, avg);
    NormGrows(|docs[j]|, |docs[i]|, avg);
    IdfIsPositive(|docs|, Df(docs, t), ln);
    TfPositive(query, t);
    ProductIsPositive(Tf(query, t) as real, Idf(docs, t, ln));
    PartKeepsOrder(Tf(query, t) as real * Idf(docs, t, ln), Tf(docs[i], t) as real, Tf(docs[j], t) as real,
        Norm(docs, i), Norm(docs, j));
  }

  lemma {:induction false} DirectKeepsOrder(docs: seq<Doc>, ln: real -> real, query: Doc, i: nat, j: nat, k: nat)
    requires i < |docs| && j < |docs| && LogLike(ln) && k <= |Order(query)|
    requires |docs[j]| <= |docs[i]| && forall t :: t in query ==> Tf(docs[i], t) <= Tf(docs[j], t)
    ensures Direct(docs, ln, query, i, k) <= Direct(docs, ln, query, j, k)
  {
    if k > 0 {
      DirectKeepsOrder(docs, ln, query, i, j, k - 1);
      OrderMembers(query, Order(query)[k - 1]);
      TermKeepsOrder(docs, ln, query, Order(query)[k - 1], i, j);
    }
  }

  /** A document that is no longer than another and has every term of the query at least as
      often scores at least as high. */
  lemma ScoreKeepsOrder(docs: seq<Doc>, ln: real -> real, query: Doc, i: nat, j: nat)
    requires i < |docs| && j < |docs| && LogLike(ln)
    requires |docs[j]| <= |docs[i]| && forall t :: t in query ==> Tf(docs[i], t) <= Tf(docs[j], t)
    ensures Score(docs, ln, query, i) <= Score(docs, ln, query, j)
  {
    DirectKeepsOrder(docs, ln, query, i, j, |Order(query)|);
  }

  /** Every term of the query counts once, with its number of occurrences there. */
  lemma {:induction false} OrderIsDistinct(query: Doc)
    ensures forall i, j :: 0 <= i < j < |Order(query)| ==> Order(query)[i] != Order(query)[j]
  {
    if query != [] {
      var init, t := query[..|query| - 1], query[|query| - 1];
      OrderIsDistinct(init);
      OrderMembers(init, t);
      TfPositive(init, t);
      assert forall i :: 0 <= i < |Order(init)| ==> Order(init)[i] in Order(init);
    }
  }
}
