/** Fusing a cosine and a lexical score, each rescaled to its own range. */
module Fusion {
  import opened Text

  function Low(s: seq<real>): real
    requires s != []
  {
    if |s| == 1 then s[0] else var r := Low(s[..|s| - 1]); if s[|s| - 1] < r then s[|s| - 1] else r
  }

  function High(s: seq<real>): real
    requires s != []
  {
    if |s| == 1 then s[0] else var r := High(s[..|s| - 1]); if s[|s| - 1] > r then s[|s| - 1] else r
  }

  function Rescale(v: real, lo: real, hi: real): real {
    if hi > lo then (v - lo) / (hi - lo) else 0.0
  }

  /** Each value rescaled to the range of all. */
  function Rescaled(s: seq<real>): (r: seq<real>)
    ensures |r| == |s|
  {
    seq(|s|, i requires 0 <= i < |s| => Rescale(s[i], Low(s), High(s)))
  }

  lemma {:induction false} Bounds(s: seq<real>, i: nat)
    requires i < |s|
    ensures Low(s) <= s[i] <= High(s)
  {
    if i < |s| - 1 { Bounds(s[..|s| - 1], i); }
  }

  lemma RescaleInUnit(v: real, lo: real, hi: real)
    requires lo <= v <= hi
    ensures 0.0 <= Rescale(v, lo, hi) <= 1.0
  {
    RescaleKeepsOrder(lo, v, lo, hi);
    RescaleKeepsOrder(v, hi, lo, hi);
    assert Rescale(lo, lo, hi) == 0.0;
    assert hi > lo ==> (hi - lo) / (hi - lo) == 1.0;
  }

  lemma RescaleKeepsOrder(u: real, v: real, lo: real, hi: real)
    requires u <= v
    ensures Rescale(u, lo, hi) <= Rescale(v, lo, hi)
  {
    if hi > lo { assert (v - lo) / (hi - lo) - (u - lo) / (hi - lo) == (v - u) / (hi - lo); }
  }

  /** `MinMax`, in place. */
  method MinMax(s: array<real>)
    modifies s
    ensures s[..] == Rescaled(old(s[..]))
  {
    if s.Length == 0 { return; }
    var lo, hi := s[0], s[0];
    var i := 1;
    assert s[..1] == [s[0]];
    while i < s.Length
      invariant 1 <= i <= s.Length && lo == Low(s[..i]) && hi == High(s[..i])
    {
      assert s[..i + 1][..i] == s[..i];
      if s[i] < lo { lo := s[i]; }
      if s[i] > hi { hi := s[i]; }
      i := i + 1;
    }
    assert s[..i] == s[..];
    i := 0;
    while i < s.Length
      invariant 0 <= i <= s.Length
      invariant forall k :: 0 <= k < i ==> s[k] == Rescale(old(s[k]), lo, hi)
      invariant forall k :: i <= k < s.Length ==> s[k] == old(s[k])
    {
      s[i] := Rescale(s[i], lo, hi);
      i := i + 1;
    }
  }

  /** One document's fused score; `cos` is absent when there is no embedder. */
  function Fused(cos: Option<seq<real>>, lex: seq<real>, alpha: real, i: nat): real
    requires i < |lex| && (cos.Some? ==> |cos.value| == |lex|)
  {
    (if cos.Some? then alpha * Rescaled(cos.value)[i] else 0.0) + (1.0 - alpha) * Rescaled(lex)[i]
  }

  /** A copy, rescaled. */
  method Normalized(s: seq<real>) returns (a: array<real>)
    ensures fresh(a) && a[..] == Rescaled(s)
  {
    a := new real[|s|](i requires 0 <= i < |s| => s[i]);
    assert a[..] == s;
    MinMax(a);
  }

  method Fuse(cos: Option<seq<real>>, lex: seq<real>, alpha: real) returns (out: array<real>)
    requires cos.Some? ==> |cos.value| == |lex|
    ensures fresh(out) && out.Length == |lex| && forall i :: 0 <= i < |lex| ==> out[i] == Fused(cos, lex, alpha, i)
  {
    var l := Normalized(lex);
    var c := Normalized(if cos.Some? then cos.value else []);
    out := new real[|lex|](_ => 0.0);
    var i := 0;
    while i < |lex|
      invariant 0 <= i <= |lex| && l[..] == Rescaled(lex) && (cos.Some? ==> c[..] == Rescaled(cos.value))
      invariant forall k :: 0 <= k < i ==> out[k] == Fused(cos, lex, alpha, k)
      invariant forall k :: i <= k < |lex| ==> out[k] == 0.0
    {
      var x, y := if cos.Some? then c[..][i] else 0.0, l[..][i];
      out[i] := (if cos.Some? then alpha * x else 0.0) + (1.0 - alpha) * y;
      i := i + 1;
    }
  }

  /** What rescaling means: for the least and the greatest of the values, the distance from the
      least as a share of the whole range; zero if all are equal. */
  lemma RescaledSays(s: seq<real>, least: nat, greatest: nat, i: nat)
    requires least < |s| && greatest < |s| && i < |s|
    requires forall k :: 0 <= k < |s| ==> s[least] <= s[k] <= s[greatest]
    ensures s[greatest] > s[least] ==> Rescaled(s)[i] == (s[i] - s[least]) / (s[greatest] - s[least])
    ensures s[greatest] == s[least] ==> Rescaled(s)[i] == 0.0
  {
    Bounds(s, least);
    Bounds(s, greatest);
    Attained(s);
  }

  lemma {:induction false} Attained(s: seq<real>)
    requires s != []
    ensures Low(s) in s && High(s) in s
  {
    if |s| > 1 {
      Attained(s[..|s| - 1]);
      assert forall x :: x in s[..|s| - 1] ==> x in s;
    }
  }

  /** The fusion is the weighted mean of the two signals: all cosine at 1, all lexical at 0,
      and in between in proportion; without an embedder only the lexical share is left. */
  lemma FusedIsMean(cos: seq<real>, lex: seq<real>, alpha: real, i: nat)
    requires |cos| == |lex| && i < |lex|
    ensures Fused(Some(cos), lex, 1.0, i) == Rescaled(cos)[i]
    ensures Fused(Some(cos), lex, 0.0, i) == Rescaled(lex)[i]
    ensures Fused(Some(cos), lex, alpha, i)
         == alpha * Fused(Some(cos), lex, 1.0, i) + (1.0 - alpha) * Fused(Some(cos), lex, 0.0, i)
    ensures Fused(None, lex, alpha, i) == (1.0 - alpha) * Rescaled(lex)[i]
  {
  }

  /** A fused score lies in [0, 1]. */
  lemma FusedInUnit(cos: Option<seq<real>>, lex: seq<real>, alpha: real, i: nat)
    requires i < |lex| && (cos.Some? ==> |cos.value| == |lex|) && 0.0 <= alpha <= 1.0
    ensures 0.0 <= Fused(cos, lex, alpha, i) <= 1.0
  {
    Bounds(lex, i);
    RescaleInUnit(lex[i], Low(lex), High(lex));
    var c := if cos.Some? then Rescaled(cos.value)[i] else 0.0;
    if cos.Some? {
      Bounds(cos.value, i);
      RescaleInUnit(cos.value[i], Low(cos.value), High(cos.value));
    }
    assert cos.None? ==> alpha * c == 0.0;
    Blend(alpha, c, Rescaled(lex)[i]);
  }

  lemma Blend(alpha: real, x: real, y: real)
    requires 0.0 <= alpha <= 1.0 && 0.0 <= x <= 1.0 && 0.0 <= y <= 1.0
    ensures 0.0 <= alpha * x + (1.0 - alpha) * y <= 1.0
  {
    assert 0.0 <= alpha * x <= alpha * 1.0;
    assert 0.0 <= (1.0 - alpha) * y <= (1.0 - alpha) * 1.0;
  }

  /** A document that is no worse in both signals is no worse in the fusion. */
  lemma FusedKeepsOrder(cos: Option<seq<real>>, lex: seq<real>, alpha: real, i: nat, j: nat)
    requires i < |lex| && j < |lex| && (cos.Some? ==> |cos.value| == |lex|) && 0.0 <= alpha <= 1.0
    requires lex[i] <= lex[j] && (cos.Some? ==> cos.value[i] <= cos.value[j])
    ensures Fused(cos, lex, alpha, i) <= Fused(cos, lex, alpha, j)
  {
    RescaledKeepsOrder(lex, i, j);
    if cos.Some? {
      RescaledKeepsOrder(cos.value, i, j);
      BlendKeepsOrder(alpha, Rescaled(cos.value)[i], Rescaled(cos.value)[j], Rescaled(lex)[i], Rescaled(lex)[j]);
    } else {
      BlendKeepsOrder(alpha, 0.0, 0.0, Rescaled(lex)[i], Rescaled(lex)[j]);
    }
  }

  lemma RescaledKeepsOrder(s: seq<real>, i: nat, j: nat)
    requires i < |s| && j < |s| && s[i] <= s[j]
    ensures Rescaled(s)[i] <= Rescaled(s)[j]
  {
    RescaleKeepsOrder(s[i], s[j], Low(s), High(s));
  }

  lemma BlendKeepsOrder(alpha: real, x: real, x1: real, y: real, y1: real)
    requires 0.0 <= alpha <= 1.0 && x <= x1 && y <= y1
    ensures alpha * x + (1.0 - alpha) * y <= alpha * x1 + (1.0 - alpha) * y1
  {
    assert 0.0 <= alpha * (x1 - x);
    assert 0.0 <= (1.0 - alpha) * (y1 - y);
  }
}
