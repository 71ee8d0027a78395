/** Packing texts into embedding requests under an instance cap and a token budget. */
module Batches {
  const MAX_INSTANCES: nat := 250
  const TOKEN_BUDGET: nat := 16000
  const MAX_CHARS: nat := 8000

  function EstTokens(s: string): nat { (|s| + 2) / 3 }

  /** Estimated tokens of texts[i..j]. */
  function Tokens(texts: seq<string>, i: nat, j: nat): nat
    requires i <= j <= |texts|
    decreases j
  {
    if i == j then 0 else Tokens(texts, i, j - 1) + EstTokens(texts[j - 1])
  }

  predicate WithinBudget(texts: seq<string>, i: nat, j: nat)
    requires i <= j <= |texts|
  {
    j - i <= MAX_INSTANCES && Tokens(texts, i, j) <= TOKEN_BUDGET
  }

  /** A request may hold texts[i..j]: within both budgets, or one text alone. */
  predicate BatchOk(texts: seq<string>, i: nat, j: nat) {
    i < j <= |texts| && (j == i + 1 || WithinBudget(texts, i, j))
  }

  /** The ends cut texts[i..] into allowed batches, one after the other. */
  predicate Packing(texts: seq<string>, i: nat, ends: seq<nat>)
    decreases |ends|
  {
    if ends == [] then i == |texts| else BatchOk(texts, i, ends[0]) && Packing(texts, ends[0], ends[1..])
  }

  ghost predicate Longest(texts: seq<string>, i: nat, j: nat) {
    forall k: nat :: BatchOk(texts, i, k) ==> k <= j
  }

  ghost predicate Greedy(texts: seq<string>, i: nat, ends: seq<nat>)
    decreases |ends|
  {
    if ends == [] then i == |texts|
    else BatchOk(texts, i, ends[0]) && Longest(texts, i, ends[0]) && Greedy(texts, ends[0], ends[1..])
  }

  lemma {:induction false} TokensWithin(texts: seq<string>, i: nat, i1: nat, j1: nat, j: nat)
    requires i <= i1 <= j1 <= j <= |texts|
    ensures Tokens(texts, i1, j1) <= Tokens(texts, i, j)
    decreases j
  {
    if j1 < j {
      TokensWithin(texts, i, i1, j1, j - 1);
    } else if i1 < j1 {
      TokensWithin(texts, i, i1, j1 - 1, j - 1);
    }
  }

  /** A later start or an earlier end keeps a batch allowed. */
  lemma Shrink(texts: seq<string>, i: nat, i1: nat, j1: nat, j: nat)
    requires BatchOk(texts, i, j) && i <= i1 < j1 <= j
    ensures BatchOk(texts, i1, j1)
  {
    TokensWithin(texts, i, i1, j1, j);
  }

  /** The greedy packing stays ahead of any other that starts no later. */
  lemma {:induction false} GreedyIsShortest(texts: seq<string>, i: nat, greedy: seq<nat>, i1: nat, other: seq<nat>)
    requires Greedy(texts, i, greedy) && i1 <= i && Packing(texts, i1, other)
    ensures |greedy| <= |other|
    decreases |greedy|
  {
    if greedy != [] {
      if i < other[0] { Shrink(texts, i1, i, other[0], other[0]); }
      GreedyIsShortest(texts, greedy[0], greedy[1..], other[0], other[1..]);
    }
  }

  lemma {:induction false} GreedyIsPacking(texts: seq<string>, i: nat, ends: seq<nat>)
    requires Greedy(texts, i, ends)
    ensures Packing(texts, i, ends)
    decreases |ends|
  {
    if ends != [] { GreedyIsPacking(texts, ends[0], ends[1..]); }
  }

  /** Texts clipped as `Embed` clips them never need the exception for one long text. */
  lemma ClippedIsWithinBudget(texts: seq<string>, i: nat, j: nat)
    requires BatchOk(texts, i, j) && forall k :: 0 <= k < |texts| ==> |texts[k]| <= MAX_CHARS
    ensures WithinBudget(texts, i, j)
  {
    if j == i + 1 { assert Tokens(texts, i, j) == Tokens(texts, i, i) + EstTokens(texts[i]); }
  }

  // ---------------------------------------------------------------- the loops

  function Ends(batches: seq<(nat, nat)>): seq<nat> {
    if batches == [] then [] else [batches[0].1] + Ends(batches[1..])
  }

  /** Consecutive ranges from `i`. */
  predicate Chained(batches: seq<(nat, nat)>, i: nat) {
    batches != [] ==> batches[0].0 == i && Chained(batches[1..], batches[0].1)
  }

  /** So far batches cut texts[..i] greedily: any greedy rest completes them. */
  ghost predicate Started(texts: seq<string>, batches: seq<(nat, nat)>, i: nat) {
    && Chained(batches, 0)
    && forall rest: seq<nat> :: Greedy(texts, i, rest) ==> Greedy(texts, 0, Ends(batches) + rest)
  }

  lemma {:induction false} EndsAppend(batches: seq<(nat, nat)>, b: (nat, nat), start: nat)
    requires Chained(batches, start)
    requires b.0 == if batches == [] then start else batches[|batches| - 1].1
    ensures Ends(batches + [b]) == Ends(batches) + [b.1]
    ensures Chained(batches + [b], start)
  {
    if batches == [] {
      assert ([] + [b])[1..] == [];
    } else {
      assert (batches + [b])[1..] == batches[1..] + [b];
      EndsAppend(batches[1..], b, batches[0].1);
    }
  }

  lemma StartedStep(texts: seq<string>, batches: seq<(nat, nat)>, i: nat, j: nat)
    requires Started(texts, batches, i) && BatchOk(texts, i, j) && Longest(texts, i, j)
    requires i == if batches == [] then 0 else batches[|batches| - 1].1
    ensures Started(texts, batches + [(i, j)], j)
  {
    EndsAppend(batches, (i, j), 0);
    forall rest: seq<nat> | Greedy(texts, j, rest) ensures Greedy(texts, 0, Ends(batches + [(i, j)]) + rest) {
      assert ([j] + rest)[1..] == rest;
      assert Greedy(texts, i, [j] + rest);
      assert Ends(batches + [(i, j)]) + rest == Ends(batches) + ([j] + rest);
    }
  }

  /** The inner loop: the longest batch from `i`. */
  method NextEnd(texts: seq<string>, i: nat) returns (j: nat)
    requires i < |texts|
    ensures BatchOk(texts, i, j) && Longest(texts, i, j)
  {
    j := i;
    var tokens := 0;
    while j < |texts|
      invariant i <= j <= |texts| && tokens == Tokens(texts, i, j) && (i < j ==> BatchOk(texts, i, j))
    {
      var tk := EstTokens(texts[j]);
      if j > i && (j - i >= MAX_INSTANCES || tokens + tk > TOKEN_BUDGET) {
        forall k: nat | BatchOk(texts, i, k) ensures k <= j {
          if k > j { Shrink(texts, i, i, j + 1, k); }
        }
        return;
      }
      tokens, j := tokens + tk, j + 1;
    }
  }

  /** `embedBatches`: consecutive allowed ranges over all the texts, and no packing needs
      fewer. */
  method EmbedBatches(texts: seq<string>) returns (batches: seq<(nat, nat)>)
    ensures Chained(batches, 0) && Packing(texts, 0, Ends(batches))
    ensures forall other: seq<nat> :: Packing(texts, 0, other) ==> |Ends(batches)| <= |other|
  {
    batches := [];
    var i := 0;
    assert forall rest: seq<nat> :: Ends([]) + rest == rest;
    while i < |texts|
      invariant i <= |texts| && i == if batches == [] then 0 else batches[|batches| - 1].1
      invariant Started(texts, batches, i)
    {
      var j := NextEnd(texts, i);
      StartedStep(texts, batches, i, j);
      batches := batches + [(i, j)];
      i := j;
    }
    assert Greedy(texts, i, []) && Ends(batches) + [] == Ends(batches);
    GreedyIsPacking(texts, 0, Ends(batches));
    forall other: seq<nat> | Packing(texts, 0, other) ensures |Ends(batches)| <= |other| {
      GreedyIsShortest(texts, 0, Ends(batches), 0, other);
    }
  }
}
