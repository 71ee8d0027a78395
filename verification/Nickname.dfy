/** Nicknames: which names can be given out, with what probability, and that one allocator
    never gives the same name twice. */
module Nickname {
  import opened Text

  const ROOT_AGENT := "main-agent"
  const CHATBOT := "chatty-bot"
  const MAX_DRAWS: nat := 64
  const FALLBACK_ATTEMPTS: nat := 8

  predicate IsReserved(name: string) { name == ROOT_AGENT || name == CHATBOT }

  // ---------------------------------------------------------------- the pool

  function Filtered(words: seq<string>, drop: set<string>): seq<string> {
    if words == [] then
      []
    else
      var init, last := words[..|words| - 1], words[|words| - 1];
      Filtered(init, drop) + (if last in drop then [] else [last])
  }

  lemma {:induction false} FilteredMembers(words: seq<string>, drop: set<string>)
    ensures forall w :: w in Filtered(words, drop) <==> w in words && w !in drop
  {
    if words != [] {
      FilteredMembers(words[..|words| - 1], drop);
      assert words == words[..|words| - 1] + [words[|words| - 1]];
    }
  }

  method Filter(words: seq<string>, drop: set<string>) returns (kept: seq<string>)
    ensures kept == Filtered(words, drop)
  {
    kept := [];
    var i := 0;
    while i < |words|
      invariant 0 <= i <= |words| && kept == Filtered(words[..i], drop)
    {
      assert words[..i + 1][..i] == words[..i];
      if words[i] !in drop { kept := kept + [words[i]]; }
      i := i + 1;
    }
    assert words[..i] == words;
  }

  predicate Distinct(s: seq<string>) {
    forall i, j :: 0 <= i < j < |s| ==> s[i] != s[j]
  }

  /** A word list as the package declares it: distinct words without a dash. */
  predicate WordList(words: seq<string>) {
    Distinct(words) && forall w :: w in words ==> '-' !in w
  }

  lemma {:induction false} FilteredIsWordList(words: seq<string>, drop: set<string>)
    requires WordList(words)
    ensures WordList(Filtered(words, drop))
  {
    if words != [] {
      FilteredIsWordList(words[..|words| - 1], drop);
      assert words[|words| - 1] !in words[..|words| - 1];
      FilteredMembers(words[..|words| - 1], drop);
    }
  }

  /** The words left once those of the reserved names are dropped. */
  ghost predicate Pool(adjs: seq<string>, nouns: seq<string>) {
    && WordList(adjs) && WordList(nouns)
    && "main" !in adjs && "chatty" !in adjs
  }

  /** The parts of a reserved name. */
  lemma ReservedParts()
    ensures Cut(ROOT_AGENT, '-') == ("main", "agent") && Cut(CHATBOT, '-') == ("chatty", "bot")
  {
    IndexOfFirst("main", '-', "agent");
    IndexOfFirst("chatty", '-', "bot");
    assert ROOT_AGENT == "main" + ['-'] + "agent" && CHATBOT == "chatty" + ['-'] + "bot";
  }

  /** `init`: the parts of the reserved names are dropped from the two lists.  What is left is
      a pool, for any two word lists. */
  method InitPool(adjectives: seq<string>, nouns: seq<string>) returns (poolAdj: seq<string>, poolNoun: seq<string>)
    requires WordList(adjectives) && WordList(nouns)
    ensures poolAdj == Filtered(adjectives, {"main", "chatty"}) && poolNoun == Filtered(nouns, {"agent", "bot"})
    ensures Pool(poolAdj, poolNoun)
  {
    var reserved := [ROOT_AGENT, CHATBOT];
    var dropAdj, dropNoun: set<string> := {}, {};
    ReservedParts();
    for i := 0 to |reserved|
      invariant i == 0 ==> dropAdj == {} && dropNoun == {}
      invariant i == 1 ==> dropAdj == {"main"} && dropNoun == {"agent"}
      invariant i == 2 ==> dropAdj == {"main", "chatty"} && dropNoun == {"agent", "bot"}
    {
      var parts := Cut(reserved[i], '-');
      dropAdj, dropNoun := dropAdj + {parts.0}, dropNoun + {parts.1};
    }
    poolAdj := Filter(adjectives, dropAdj);
    poolNoun := Filter(nouns, dropNoun);
    FilteredIsWordList(adjectives, dropAdj);
    FilteredIsWordList(nouns, dropNoun);
    FilteredMembers(adjectives, dropAdj);
  }

  function NameOf(a: string, n: string): string { a + "-" + n }

  function Row(a: string, nouns: seq<string>): (r: seq<string>)
    ensures |r| == |nouns|
  {
    seq(|nouns|, j requires 0 <= j < |nouns| => NameOf(a, nouns[j]))
  }

  /** Every name of the pool, in the order of the two nested loops. */
  function Grid(adjs: seq<string>, nouns: seq<string>): seq<string> {
    if adjs == [] then [] else Grid(adjs[..|adjs| - 1], nouns) + Row(adjs[|adjs| - 1], nouns)
  }

  lemma {:induction false} NameSplits(a: string, rest: string, b: string, other: string)
    requires '-' !in a && '-' !in b && a + "-" + rest == b + "-" + other
    ensures a == b && rest == other
  {
    var s, t := a + "-" + rest, b + "-" + other;
    assert s[|a|] == '-' && t[|b|] == '-';
    assert forall i :: 0 <= i < |a| ==> s[i] == a[i] && a[i] in a;
    assert forall i :: 0 <= i < |b| ==> t[i] == b[i] && b[i] in b;
    assert a == s[..|a|] == t[..|b|] == b;
    assert rest == s[|a| + 1..] == t[|b| + 1..] == other;
  }

  lemma {:induction false} GridNames(adjs: seq<string>, nouns: seq<string>, name: string)
    ensures name in Grid(adjs, nouns) <==> exists a, n :: a in adjs && n in nouns && name == NameOf(a, n)
  {
    if adjs != [] {
      var init, last := adjs[..|adjs| - 1], adjs[|adjs| - 1];
      GridNames(init, nouns, name);
      assert adjs == init + [last];
      if a, n :| a in adjs && n in nouns && name == NameOf(a, n) {
        var j :| 0 <= j < |nouns| && nouns[j] == n;
        assert a == last ==> Row(last, nouns)[j] == name;
      }
    }
  }

  /** No name appears twice, so each cell of the grid is a name of its own. */
  lemma {:induction false} GridIsDistinct(adjs: seq<string>, nouns: seq<string>)
    requires WordList(adjs) && WordList(nouns)
    ensures Distinct(Grid(adjs, nouns))
  {
    if adjs != [] {
      var init, last := adjs[..|adjs| - 1], adjs[|adjs| - 1];
      GridIsDistinct(init, nouns);
      RowIsDistinct(last, nouns);
      var grid, row := Grid(init, nouns), Row(last, nouns);
      forall i, j | 0 <= i < |grid| && 0 <= j < |row| ensures grid[i] != row[j] {
        GridNames(init, nouns, grid[i]);
        assert grid[i] in grid;
        var a, n :| a in init && n in nouns && grid[i] == NameOf(a, n);
        if grid[i] == row[j] { NameSplits(a, n, last, nouns[j]); }
      }
    }
  }

  lemma RowIsDistinct(a: string, nouns: seq<string>)
    requires WordList(nouns) && '-' !in a
    ensures Distinct(Row(a, nouns))
  {
    forall i, j | 0 <= i < j < |nouns| ensures NameOf(a, nouns[i]) != NameOf(a, nouns[j]) {
      if NameOf(a, nouns[i]) == NameOf(a, nouns[j]) { NameSplits(a, nouns[i], a, nouns[j]); }
    }
  }

  lemma PoolIsNotReserved(adjs: seq<string>, nouns: seq<string>, a: string, rest: string)
    requires Pool(adjs, nouns) && a in adjs
    ensures !IsReserved(a + "-" + rest)
  {
    assert ROOT_AGENT == "main" + "-" + "agent" && CHATBOT == "chatty" + "-" + "bot";
    if a + "-" + rest == ROOT_AGENT { NameSplits(a, rest, "main", "agent"); }
    if a + "-" + rest == CHATBOT { NameSplits(a, rest, "chatty", "bot"); }
  }

  // ---------------------------------------------------------------- the choice

  /** `freeNames`. */
  function Free(grid: seq<string>, used: set<string>): (free: seq<string>)
    ensures forall x :: x in free <==> x in grid && x !in used
  {
    FilteredMembers(grid, used);
    Filtered(grid, used)
  }

  /** The first free name among the cells drawn. */
  function FirstFree(grid: seq<string>, used: set<string>, draws: seq<nat>): Option<string>
    requires forall i :: 0 <= i < |draws| ==> draws[i] < |grid|
  {
    if draws == [] then None else
      match FirstFree(grid, used, draws[..|draws| - 1])
      case Some(x) => Some(x)
      case None => if grid[draws[|draws| - 1]] in used then None else Some(grid[draws[|draws| - 1]])
  }

  /** The name returned for given random numbers: cells of the grid, then an index into the
      free names. */
  function Pick(grid: seq<string>, used: set<string>, draws: seq<nat>, last: nat): string
    requires forall i :: 0 <= i < |draws| ==> draws[i] < |grid|
    requires last < |Free(grid, used)|
  {
    match FirstFree(grid, used, draws)
    case Some(x) => x
    case None => Free(grid, used)[last]
  }

  // ------------------------------------------------------------- probability

  predicate Draws(grid: seq<string>, draws: seq<nat>) {
    forall i :: 0 <= i < |draws| ==> draws[i] < |grid|
  }

  /** How many of the first `n` last indices lead to `x`. */
  function Hits(grid: seq<string>, used: set<string>, draws: seq<nat>, x: string, n: nat): real
    requires Draws(grid, draws) && n <= |Free(grid, used)|
  {
    if n == 0 then 0.0 else Hits(grid, used, draws, x, n - 1) + if Pick(grid, used, draws, n - 1) == x then 1.0 else 0.0
  }

  /** The chance that the call returns `x`, with `draws` made and `k` still to come: the mean
      over the next draw, uniform over the grid, and at last over the index into the free
      names. */
  function Chance(grid: seq<string>, used: set<string>, draws: seq<nat>, k: nat, x: string): real
    requires Draws(grid, draws) && Free(grid, used) != []
    decreases k, |grid| + 1
  {
    if k == 0 then Hits(grid, used, draws, x, |Free(grid, used)|) / |Free(grid, used)| as real
    else
      assert grid != [] by { assert Free(grid, used)[0] in Free(grid, used); }
      ChanceSum(grid, used, draws, k, x, |grid|) / |grid| as real
  }

  function ChanceSum(grid: seq<string>, used: set<string>, draws: seq<nat>, k: nat, x: string, n: nat): real
    requires Draws(grid, draws) && Free(grid, used) != [] && 0 < k && n <= |grid|
    decreases k, n
  {
    if n == 0 then 0.0 else
      ChanceSum(grid, used, draws, k, x, n - 1) + Chance(grid, used, draws + [n - 1], k - 1, x)
  }

  function Indicator(b: bool): real { if b then 1.0 else 0.0 }

  lemma {:induction false} HitsSettled(grid: seq<string>, used: set<string>, draws: seq<nat>, x: string, n: nat)
    requires Draws(grid, draws) && n <= |Free(grid, used)| && FirstFree(grid, used, draws).Some?
    ensures Hits(grid, used, draws, x, n) == n as real * Indicator(FirstFree(grid, used, draws).value == x)
  {
    if n > 0 { HitsSettled(grid, used, draws, x, n - 1); }
  }

  lemma FirstFreeExtends(grid: seq<string>, used: set<string>, draws: seq<nat>, c: nat)
    requires Draws(grid, draws) && c < |grid|
    ensures FirstFree(grid, used, draws + [c]) ==
      if FirstFree(grid, used, draws).Some? then FirstFree(grid, used, draws)
      else if grid[c] in used then None else Some(grid[c])
  {
    assert (draws + [c])[..|draws|] == draws;
  }

  lemma MeanOfEqual(n: nat, v: real)
    requires n > 0
    ensures n as real * v / n as real == v
  {
  }

  /** Once a free name was drawn the rest does not matter. */
  lemma {:induction false} Settled(grid: seq<string>, used: set<string>, draws: seq<nat>, k: nat, x: string)
    requires Draws(grid, draws) && Free(grid, used) != [] && FirstFree(grid, used, draws).Some?
    ensures Chance(grid, used, draws, k, x) == Indicator(FirstFree(grid, used, draws).value == x)
    decreases k, |grid| + 1
  {
    var v := Indicator(FirstFree(grid, used, draws).value == x);
    if k == 0 {
      HitsSettled(grid, used, draws, x, |Free(grid, used)|);
      MeanOfEqual(|Free(grid, used)|, v);
    } else {
      assert Free(grid, used)[0] in Free(grid, used);
      SettledSum(grid, used, draws, k, x, |grid|);
      MeanOfEqual(|grid|, v);
    }
  }

  lemma {:induction false} SettledSum(grid: seq<string>, used: set<string>, draws: seq<nat>, k: nat, x: string, n: nat)
    requires Draws(grid, draws) && Free(grid, used) != [] && FirstFree(grid, used, draws).Some? && 0 < k && n <= |grid|
    ensures ChanceSum(grid, used, draws, k, x, n) == n as real * Indicator(FirstFree(grid, used, draws).value == x)
    decreases k, n
  {
    if n > 0 {
      SettledSum(grid, used, draws, k, x, n - 1);
      FirstFreeExtends(grid, used, draws, n - 1);
      Settled(grid, used, draws + [n - 1], k - 1, x);
    }
  }

  /** How often `x` is among the first `n`. */
  function Count(s: seq<string>, x: string, n: nat): nat
    requires n <= |s|
  {
    if n == 0 then 0 else Count(s, x, n - 1) + if s[n - 1] == x then 1 else 0
  }

  lemma {:induction false} CountOnce(s: seq<string>, x: string, n: nat)
    requires Distinct(s) && n <= |s|
    ensures Count(s, x, n) == if x in s[..n] then 1 else 0
  {
    if n > 0 {
      CountOnce(s, x, n - 1);
      assert s[..n] == s[..n - 1] + [s[n - 1]];
    }
  }

  lemma {:induction false} FreeIsDistinct(grid: seq<string>, used: set<string>)
    requires Distinct(grid)
    ensures Distinct(Free(grid, used))
  {
    if grid != [] {
      FreeIsDistinct(grid[..|grid| - 1], used);
      assert grid[|grid| - 1] !in grid[..|grid| - 1];
    }
  }

  lemma {:induction false} HitsOpen(grid: seq<string>, used: set<string>, draws: seq<nat>, x: string, n: nat)
    requires Draws(grid, draws) && n <= |Free(grid, used)| && FirstFree(grid, used, draws) == None
    ensures Hits(grid, used, draws, x, n) == Count(Free(grid, used), x, n) as real
  {
    if n > 0 { HitsOpen(grid, used, draws, x, n - 1); }
  }

  function UsedIn(grid: seq<string>, used: set<string>, n: nat): nat
    requires n <= |grid|
  {
    if n == 0 then 0 else UsedIn(grid, used, n - 1) + if grid[n - 1] in used then 1 else 0
  }

  lemma {:induction false} UsedAndFree(grid: seq<string>, used: set<string>, n: nat)
    requires n <= |grid|
    ensures UsedIn(grid, used, n) + |Free(grid[..n], used)| == n
  {
    if n > 0 {
      UsedAndFree(grid, used, n - 1);
      assert grid[..n][..n - 1] == grid[..n - 1];
    }
  }

  /** `hits` cells hit, `u` used ones leave it to the rest of the call. */
  function Mixed(hits: nat, u: nat, m: nat): real
    requires m > 0
  {
    hits as real + u as real * (1.0 / m as real)
  }

  lemma MeanIsShare(m: nat, g: nat, u: nat)
    requires 0 < m && u + m == g
    ensures Mixed(1, u, m) / g as real == 1.0 / m as real
  {
    var p := 1.0 / m as real;
    assert m as real * p == 1.0;
    assert 1.0 + u as real * p == g as real * p;
    MeanOfEqual(g, p);
  }

  lemma UniformLast(grid: seq<string>, used: set<string>, draws: seq<nat>, x: string)
    requires Distinct(grid) && Draws(grid, draws) && x in Free(grid, used)
    requires FirstFree(grid, used, draws) == None
    ensures Chance(grid, used, draws, 0, x) == 1.0 / |Free(grid, used)| as real
  {
    var free := Free(grid, used);
    FreeIsDistinct(grid, used);
    HitsOpen(grid, used, draws, x, |free|);
    CountOnce(free, x, |free|);
    assert free[..|free|] == free;
  }

  lemma SplitOfAll(grid: seq<string>, used: set<string>, x: string)
    requires Distinct(grid) && x in Free(grid, used)
    ensures grid != [] && Split(grid, used, x, |grid|) / |grid| as real == 1.0 / |Free(grid, used)| as real
  {
    CountOnce(grid, x, |grid|);
    assert grid[..|grid|] == grid;
    UsedAndFree(grid, used, |grid|);
    MeanIsShare(|Free(grid, used)|, |grid|, UsedIn(grid, used, |grid|));
  }

  /** Every free name has the same chance, however many draws are left. */
  lemma {:induction false} Uniform(grid: seq<string>, used: set<string>, draws: seq<nat>, k: nat, x: string)
    requires Distinct(grid) && Draws(grid, draws) && x in Free(grid, used)
    requires FirstFree(grid, used, draws) == None
    ensures Chance(grid, used, draws, k, x) == 1.0 / |Free(grid, used)| as real
    decreases k, |grid| + 1
  {
    if k == 0 {
      UniformLast(grid, used, draws, x);
    } else {
      OpenSum(grid, used, draws, k, x, |grid|);
      SplitOfAll(grid, used, x);
    }
  }

  /** The sum over the first `n` cells: one for the cell of `x`, a share for each used one. */
  function Split(grid: seq<string>, used: set<string>, x: string, n: nat): real
    requires n <= |grid| && Free(grid, used) != []
  {
    Mixed(Count(grid, x, n), UsedIn(grid, used, n), |Free(grid, used)|)
  }

  lemma SplitStep(grid: seq<string>, used: set<string>, x: string, n: nat)
    requires 0 < n <= |grid| && x in Free(grid, used)
    ensures Split(grid, used, x, n) == Split(grid, used, x, n - 1)
      + if grid[n - 1] in used then 1.0 / |Free(grid, used)| as real else Indicator(grid[n - 1] == x)
  {
    var u, p := UsedIn(grid, used, n - 1), 1.0 / |Free(grid, used)| as real;
    assert (u + 1) as real * p == u as real * p + p;
  }

  lemma {:induction false} OpenSum(grid: seq<string>, used: set<string>, draws: seq<nat>, k: nat, x: string, n: nat)
    requires Distinct(grid) && Draws(grid, draws) && x in Free(grid, used) && 0 < k && n <= |grid|
    requires FirstFree(grid, used, draws) == None
    ensures ChanceSum(grid, used, draws, k, x, n) == Split(grid, used, x, n)
    decreases k, n
  {
    if n > 0 {
      OpenSum(grid, used, draws, k, x, n - 1);
      SplitStep(grid, used, x, n);
      OpenCell(grid, used, draws, k, x, n - 1);
    }
  }

  /** A draw of a used name leaves everything open, a draw of a free one settles it. */
  lemma {:induction false} OpenCell(grid: seq<string>, used: set<string>, draws: seq<nat>, k: nat, x: string, c: nat)
    requires Distinct(grid) && Draws(grid, draws) && x in Free(grid, used) && 0 < k && c < |grid|
    requires FirstFree(grid, used, draws) == None
    ensures Chance(grid, used, draws + [c], k - 1, x)
         == if grid[c] in used then 1.0 / |Free(grid, used)| as real else Indicator(grid[c] == x)
    decreases k, 0
  {
    FirstFreeExtends(grid, used, draws, c);
    if grid[c] in used {
      Uniform(grid, used, draws + [c], k - 1, x);
    } else {
      Settled(grid, used, draws + [c], k - 1, x);
    }
  }

  /** With m free names each of them is returned with probability 1/m. */
  lemma PickIsUniform(adjs: seq<string>, nouns: seq<string>, used: set<string>, x: string)
    requires WordList(adjs) && WordList(nouns) && x in Free(Grid(adjs, nouns), used)
    ensures Chance(Grid(adjs, nouns), used, [], MAX_DRAWS, x) == 1.0 / |Free(Grid(adjs, nouns), used)| as real
  {
    GridIsDistinct(adjs, nouns);
    Uniform(Grid(adjs, nouns), used, [], MAX_DRAWS, x);
  }

  /** A draw of a word from each list is a draw of a cell: as many cells as pairs, all
      different. */
  lemma {:induction false} GridSize(adjs: seq<string>, nouns: seq<string>)
    ensures |Grid(adjs, nouns)| == |adjs| * |nouns|
  {
    if adjs != [] {
      GridSize(adjs[..|adjs| - 1], nouns);
      assert |adjs| * |nouns| == (|adjs| - 1) * |nouns| + |nouns|;
    }
  }

  function Cell(nouns: seq<string>, i: nat, j: nat): nat { i * |nouns| + j }

  lemma CellBelow(rows: nat, columns: nat, i: nat, j: nat)
    requires i < rows && j < columns
    ensures i * columns + j < rows * columns
  {
    assert (i + 1) * columns <= rows * columns;
  }

  /** Drawing word `i` and word `j` is drawing the cell at `Cell(nouns, i, j)` ... */
  lemma {:induction false} CellName(adjs: seq<string>, nouns: seq<string>, i: nat, j: nat)
    requires i < |adjs| && j < |nouns|
    ensures Cell(nouns, i, j) < |Grid(adjs, nouns)| && Grid(adjs, nouns)[Cell(nouns, i, j)] == NameOf(adjs[i], nouns[j])
  {
    var init := adjs[..|adjs| - 1];
    GridSize(adjs, nouns);
    GridSize(init, nouns);
    CellBelow(|adjs|, |nouns|, i, j);
    if i < |init| { CellName(init, nouns, i, j); }
  }

  /** ... every cell is drawn by a pair ... */
  lemma {:induction false} PairOfCell(adjs: seq<string>, nouns: seq<string>, c: nat) returns (i: nat, j: nat)
    requires c < |Grid(adjs, nouns)|
    ensures i < |adjs| && j < |nouns| && Cell(nouns, i, j) == c
  {
    var init := adjs[..|adjs| - 1];
    if c < |Grid(init, nouns)| {
      i, j := PairOfCell(init, nouns, c);
    } else {
      GridSize(init, nouns);
      i, j := |init|, c - |Grid(init, nouns)|;
    }
  }

  /** ... and by no other, so two independent uniform draws of words are one uniform draw of a
      cell. */
  lemma CellIsOnePair(nouns: seq<string>, i: nat, j: nat, k: nat, l: nat)
    requires j < |nouns| && l < |nouns| && Cell(nouns, i, j) == Cell(nouns, k, l)
    ensures i == k && j == l
  {
    if i < k { CellBelow(k, |nouns|, i, j); }
    if k < i { CellBelow(i, |nouns|, k, l); }
  }

  // ---------------------------------------------------------------- the loops

  function IfKept(w: string, drop: set<string>): seq<string> {
    if w in drop then [] else [w]
  }

  lemma FilteredLast(s: seq<string>, w: string, drop: set<string>)
    ensures Filtered(s + [w], drop) == Filtered(s, drop) + IfKept(w, drop)
  {
    assert (s + [w])[..|s|] == s;
  }

  lemma {:induction false} FilteredAppend(s: seq<string>, t: seq<string>, drop: set<string>)
    ensures Filtered(s + t, drop) == Filtered(s, drop) + Filtered(t, drop)
  {
    if t == [] {
      assert s + t == s;
    } else {
      var init, last := t[..|t| - 1], t[|t| - 1];
      FilteredAppend(s, init, drop);
      FilteredLast(s + init, last, drop);
      FilteredLast(init, last, drop);
      assert s + t == s + init + [last] && t == init + [last];
    }
  }

  /** The inner loop: the free names that begin with `a`. */
  method FreeInRow(a: string, nouns: seq<string>, used: set<string>, before: seq<string>)
    returns (available: seq<string>)
    ensures available == before + Filtered(Row(a, nouns), used)
  {
    available := before;
    ghost var row := Row(a, nouns);
    var j := 0;
    while j < |nouns|
      invariant 0 <= j <= |nouns| && available == before + Filtered(row[..j], used)
    {
      assert row[..j + 1][..j] == row[..j];
      if NameOf(a, nouns[j]) !in used { available := available + [NameOf(a, nouns[j])]; }
      j := j + 1;
    }
    assert row[..j] == row;
  }

  method FreeNames(adjs: seq<string>, nouns: seq<string>, used: set<string>) returns (available: seq<string>)
    ensures available == Free(Grid(adjs, nouns), used)
  {
    available := [];
    var i := 0;
    while i < |adjs|
      invariant 0 <= i <= |adjs| && available == Free(Grid(adjs[..i], nouns), used)
    {
      assert adjs[..i + 1][..i] == adjs[..i];
      available := FreeInRow(adjs[i], nouns, used, available);
      FilteredAppend(Grid(adjs[..i], nouns), Row(adjs[i], nouns), used);
      i := i + 1;
    }
    assert adjs[..i] == adjs;
  }

  const ALPHABET := "0123456789abcdefghijklmnopqrstuvwxyz"

  /** A source of random numbers: the `k`-th number asked for, when it is to be below `n`. */
  type Source = (nat, nat) -> nat

  ghost predicate IsSource(rng: Source) {
    forall k: nat, n: nat :: n > 0 ==> rng(k, n) < n
  }

  /** The cell of the draw that asks for the numbers `2 * d` and `2 * d + 1`. */
  function DrawOf(rng: Source, adjs: seq<string>, nouns: seq<string>, d: nat): nat {
    Cell(nouns, rng(2 * d, |adjs|), rng(2 * d + 1, |nouns|))
  }

  method DrawName(adjs: seq<string>, nouns: seq<string>, rng: Source, d: nat) returns (name: string)
    requires adjs != [] && nouns != [] && IsSource(rng)
    ensures DrawOf(rng, adjs, nouns, d) < |Grid(adjs, nouns)|
    ensures Grid(adjs, nouns)[DrawOf(rng, adjs, nouns, d)] == name
  {
    var i, j := rng(2 * d, |adjs|), rng(2 * d + 1, |nouns|);
    CellName(adjs, nouns, i, j);
    name := NameOf(adjs[i], nouns[j]);
  }

  /** The candidate of fallback attempt `a`: two words and a suffix. */
  function Candidate(rng: Source, adjs: seq<string>, nouns: seq<string>, a: nat): string
    requires adjs != [] && nouns != [] && IsSource(rng)
  {
    var k := 2 * MAX_DRAWS + 5 * a;
    NameOf(NameOf(adjs[rng(k, |adjs|)], nouns[rng(k + 1, |nouns|)]), SuffixOf(rng, k + 2))
  }

  function SuffixOf(rng: Source, k: nat): string
    requires IsSource(rng)
  {
    [ALPHABET[rng(k, |ALPHABET|)], ALPHABET[rng(k + 1, |ALPHABET|)], ALPHABET[rng(k + 2, |ALPHABET|)]]
  }

  method Suffix(rng: Source, k: nat) returns (suffix: string)
    requires IsSource(rng)
    ensures suffix == SuffixOf(rng, k)
  {
    suffix := "";
    for i := 0 to 3
      invariant suffix == SuffixOf(rng, k)[..i]
    {
      suffix := suffix + [ALPHABET[rng(k + i, |ALPHABET|)]];
    }
    assert suffix == SuffixOf(rng, k);
  }

  method FallbackName(adjs: seq<string>, nouns: seq<string>, rng: Source, attempt: nat) returns (name: string)
    requires Pool(adjs, nouns) && adjs != [] && nouns != [] && IsSource(rng)
    ensures name == Candidate(rng, adjs, nouns, attempt) && !IsReserved(name)
  {
    var k := 2 * MAX_DRAWS + 5 * attempt;
    var a, n := adjs[rng(k, |adjs|)], nouns[rng(k + 1, |nouns|)];
    var suffix := Suffix(rng, k + 2);
    name := NameOf(NameOf(a, n), suffix);
    FallbackNotReserved(adjs, nouns, a, n, suffix);
  }

  lemma FallbackNotReserved(adjs: seq<string>, nouns: seq<string>, a: string, n: string, suffix: string)
    requires Pool(adjs, nouns) && a in adjs
    ensures !IsReserved(NameOf(NameOf(a, n), suffix))
  {
    assert NameOf(NameOf(a, n), suffix) == NameOf(a, NameOf(n, suffix));
    PoolIsNotReserved(adjs, nouns, a, NameOf(n, suffix));
  }

  /** Draws after the deciding one do not change the name. */
  lemma {:induction false} LaterDrawsDoNotMatter(grid: seq<string>, used: set<string>, draws: seq<nat>, more: seq<nat>)
    requires Draws(grid, draws) && Draws(grid, draws + more) && FirstFree(grid, used, draws).Some?
    ensures FirstFree(grid, used, draws + more) == FirstFree(grid, used, draws)
  {
    if more == [] {
      assert draws + more == draws;
    } else {
      assert (draws + more)[..|draws + more| - 1] == draws + more[..|more| - 1];
      LaterDrawsDoNotMatter(grid, used, draws, more[..|more| - 1]);
    }
  }

  /** All the draws a source stands for, made or not. */
  function AllDraws(rng: Source, adjs: seq<string>, nouns: seq<string>, n: nat): (draws: seq<nat>)
    ensures |draws| == n && forall d :: 0 <= d < n ==> draws[d] == DrawOf(rng, adjs, nouns, d)
  {
    seq(n, d requires 0 <= d < n => DrawOf(rng, adjs, nouns, d))
  }

  lemma AllDrawsAreDraws(rng: Source, adjs: seq<string>, nouns: seq<string>, n: nat)
    requires adjs != [] && nouns != [] && IsSource(rng)
    ensures Draws(Grid(adjs, nouns), AllDraws(rng, adjs, nouns, n))
  {
    forall d | 0 <= d < n ensures DrawOf(rng, adjs, nouns, d) < |Grid(adjs, nouns)| {
      CellName(adjs, nouns, rng(2 * d, |adjs|), rng(2 * d + 1, |nouns|));
    }
  }

  /** The sampling loop: the first free name among the draws, if there is one. */
  method Sample(adjs: seq<string>, nouns: seq<string>, used: set<string>, rng: Source) returns (r: Option<string>)
    requires Pool(adjs, nouns) && adjs != [] && nouns != [] && IsSource(rng)
    ensures Draws(Grid(adjs, nouns), AllDraws(rng, adjs, nouns, MAX_DRAWS))
    ensures r == FirstFree(Grid(adjs, nouns), used, AllDraws(rng, adjs, nouns, MAX_DRAWS))
    ensures r.Some? ==> r.value !in used && !IsReserved(r.value)
  {
    ghost var grid, all := Grid(adjs, nouns), AllDraws(rng, adjs, nouns, MAX_DRAWS);
    AllDrawsAreDraws(rng, adjs, nouns, MAX_DRAWS);
    for d := 0 to MAX_DRAWS
      invariant FirstFree(grid, used, all[..d]) == None
    {
      var name := DrawName(adjs, nouns, rng, d);
      FirstFreeExtends(grid, used, all[..d], all[d]);
      assert all[..d + 1] == all[..d] + [all[d]];
      if name !in used {
        NotReserved(adjs, nouns, name);
        LaterDrawsDoNotMatter(grid, used, all[..d + 1], all[d + 1..]);
        assert all[..d + 1] + all[d + 1..] == all;
        return Some(name);
      }
    }
    assert all[..MAX_DRAWS] == all;
    return None;
  }

  predicate IsUsed(rng: Source, adjs: seq<string>, nouns: seq<string>, used: set<string>, a: nat)
    requires adjs != [] && nouns != [] && IsSource(rng)
  {
    Candidate(rng, adjs, nouns, a) in used
  }

  /** The first `n` candidates are used. */
  ghost predicate AllUsed(rng: Source, adjs: seq<string>, nouns: seq<string>, used: set<string>, n: nat)
    requires adjs != [] && nouns != [] && IsSource(rng)
  {
    forall a: nat :: a < n ==> IsUsed(rng, adjs, nouns, used, a)
  }

  /** The fallback loop: the first of its candidates that is not used. */
  method FallBack(adjs: seq<string>, nouns: seq<string>, used: set<string>, rng: Source)
    returns (r: Option<string>, ghost n: nat)
    requires Pool(adjs, nouns) && adjs != [] && nouns != [] && IsSource(rng)
    ensures n <= FALLBACK_ATTEMPTS && AllUsed(rng, adjs, nouns, used, n)
    ensures r == if n == FALLBACK_ATTEMPTS then None else Some(Candidate(rng, adjs, nouns, n))
    ensures r.Some? ==> r.value !in used && !IsReserved(r.value)
  {
    n := 0;
    for attempt := 0 to FALLBACK_ATTEMPTS
      invariant n == attempt && AllUsed(rng, adjs, nouns, used, n)
    {
      var candidate := FallbackName(adjs, nouns, rng, attempt);
      if candidate !in used { return Some(candidate), n; }
      n := n + 1;
    }
    return None, n;
  }

  /** `PickUnique`: None stands for the panic after the last fallback attempt.  The numbers of
      the source decide: while a name of the pool is free, it is the first free one among the
      draws, or the one that one more number picks among the free; after that the first fallback
      candidate that is not used. */
  method PickUnique(adjs: seq<string>, nouns: seq<string>, used: set<string>, rng: Source)
    returns (r: Option<string>, ghost attempts: nat)
    requires Pool(adjs, nouns) && adjs != [] && nouns != [] && IsSource(rng)
    ensures r.Some? ==> r.value !in used && r.value != ROOT_AGENT && r.value != CHATBOT
    ensures Draws(Grid(adjs, nouns), AllDraws(rng, adjs, nouns, MAX_DRAWS))
    ensures var grid, draws := Grid(adjs, nouns), AllDraws(rng, adjs, nouns, MAX_DRAWS);
            var free := Free(grid, used);
            if free != [] then
              && rng(2 * MAX_DRAWS, |free|) < |free| && r == Some(Pick(grid, used, draws, rng(2 * MAX_DRAWS, |free|)))
              && r.value in free
            else
              && attempts <= FALLBACK_ATTEMPTS && AllUsed(rng, adjs, nouns, used, attempts)
              && r == if attempts == FALLBACK_ATTEMPTS then None else Some(Candidate(rng, adjs, nouns, attempts))
  {
    attempts := 0;
    r := Sample(adjs, nouns, used, rng);
    FirstFreeIsFree(Grid(adjs, nouns), used, AllDraws(rng, adjs, nouns, MAX_DRAWS));
    if r.Some? { return; }
    var available := FreeNames(adjs, nouns, used);
    if |available| > 0 {
      var i := rng(2 * MAX_DRAWS, |available|);
      assert available[i] in Free(Grid(adjs, nouns), used);
      NotReserved(adjs, nouns, available[i]);
      return Some(available[i]), 0;
    }
    r, attempts := FallBack(adjs, nouns, used, rng);
  }

  lemma {:induction false} FirstFreeIsFree(grid: seq<string>, used: set<string>, draws: seq<nat>)
    requires Draws(grid, draws)
    ensures FirstFree(grid, used, draws).Some? ==> FirstFree(grid, used, draws).value in Free(grid, used)
  {
    if draws != [] {
      FirstFreeIsFree(grid, used, draws[..|draws| - 1]);
      FilteredMembers(grid, used);
    }
  }

  lemma NotReserved(adjs: seq<string>, nouns: seq<string>, name: string)
    requires Pool(adjs, nouns) && name in Grid(adjs, nouns)
    ensures !IsReserved(name)
  {
    GridNames(adjs, nouns, name);
    var a, n :| a in adjs && n in nouns && name == NameOf(a, n);
    PoolIsNotReserved(adjs, nouns, a, n);
  }

  // ------------------------------------------------------------ the allocator

  ghost predicate AllTaken(adjs: seq<string>, nouns: seq<string>, used: set<string>) {
    forall x :: x in Grid(adjs, nouns) ==> x in used
  }

  lemma NoneFree(adjs: seq<string>, nouns: seq<string>, used: set<string>)
    ensures AllTaken(adjs, nouns, used) <==> Free(Grid(adjs, nouns), used) == []
    ensures AllTaken(adjs, nouns, used) ==> forall x :: AllTaken(adjs, nouns, used + {x})
  {
    var free := Free(Grid(adjs, nouns), used);
    if free == [] {
      assert forall x :: x in Grid(adjs, nouns) && x !in used ==> x in free;
    } else {
      assert free[0] in free;
    }
  }

  /** What the allocator needs to know of `PickUnique`. */
  method PickNew(adjs: seq<string>, nouns: seq<string>, used: set<string>, rng: Source) returns (r: Option<string>)
    requires Pool(adjs, nouns) && adjs != [] && nouns != [] && IsSource(rng)
    ensures r.Some? ==> r.value !in used && !IsReserved(r.value)
    ensures (r.Some? && r.value in Grid(adjs, nouns)) || AllTaken(adjs, nouns, used)
  {
    ghost var attempts;
    r, attempts := PickUnique(adjs, nouns, used, rng);
    NoneFree(adjs, nouns, used);
  }

  datatype Outcome = Given(name: string) | ListFailed | Exhausted

  class NameAllocator {
    const adjs: seq<string>
    const nouns: seq<string>
    var used: set<string>
    var seeded: bool
    ghost var issued: seq<string>     // every name given out
    ghost var existing: set<string>   // the run's sessions when the allocator was seeded

    constructor (adjs: seq<string>, nouns: seq<string>)
      requires Pool(adjs, nouns) && adjs != [] && nouns != []
      ensures Valid() && !seeded && issued == []
    {
      this.adjs, this.nouns, used, seeded, issued, existing := adjs, nouns, {}, false, [], {};
    }

    /** No name was given out twice, none was a session of the run before, none is
        reserved, and those are all that are kept back. */
    ghost predicate Valid()
      reads this
    {
      && Pool(adjs, nouns) && adjs != [] && nouns != []
      && Distinct(issued)
      && (forall x :: x in issued ==> x !in existing && !IsReserved(x))
      && (forall x :: x in used <==> x in existing || x in issued)
      && (!seeded ==> issued == [])
    }

    /** `sessions` is what the store lists when it is asked, or its failure. */
    method Next(sessions: Option<seq<string>>, rng: Source) returns (r: Outcome)
      requires Valid() && IsSource(rng)
      modifies this
      ensures Valid() && (old(seeded) ==> existing == old(existing))
      ensures !old(seeded) && sessions.Some? ==> existing == set x | x in sessions.value
      ensures match r
              case Given(name) =>
                && seeded && name !in old(issued) && issued == old(issued) + [name]
                && (name in Grid(adjs, nouns) || AllTaken(adjs, nouns, used))
              case ListFailed => !old(seeded) && sessions == None && !seeded && issued == old(issued)
              case Exhausted => issued == old(issued) && AllTaken(adjs, nouns, used)
    {
      if !seeded {
        if sessions == None { return ListFailed; }
        used := set x | x in sessions.value;
        existing, seeded := used, true;
      }
      var name := PickNew(adjs, nouns, used, rng);
      if name == None { return Exhausted; }
      used := used + {name.value};
      issued := issued + [name.value];
      return Given(name.value);
    }
  }
}
