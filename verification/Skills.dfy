/** The skill index: an incremental build over a cache of embeddings, against embedding every
    entry afresh. */
module Skills {
  import opened Text

  type Vec = seq<real>

  datatype Entry = Entry(name: string, description: string, body: string, path: string, hash: string)

  datatype CacheEntry = CacheEntry(hash: string, vector: Vec, description: string, path: string, body: string)

  type Rows = map<string, CacheEntry>     // by name, for one model key
  type Cache = map<string, Rows>          // by model key

  /** What search reads. */
  datatype Snapshot = Snapshot(names: seq<string>, entries: map<string, Entry>, matrix: seq<Vec>)

  const LEXICAL := "lexical"

  /** The embedder is known by its model id; without one the index is lexical. */
  function KeyOf(embedder: Option<string>): string {
    if embedder.Some? then embedder.value else LEXICAL
  }

  function RowsFor(cache: Cache, key: string): Rows {
    if key in cache then cache[key] else map[]
  }

  function EmbedText(e: Entry): string { e.name + ": " + e.description }

  /** The embedding service and `vec.Normalize`, which are not part of this model. */
  datatype Service = Service(embed: (string, string) -> Vec, normalize: Vec -> Vec) {
    function Row(model: string, e: Entry): Vec { normalize(embed(model, EmbedText(e))) }
  }

  // ------------------------------------------------------------------- one build

  predicate Reusable(rows: Rows, e: Entry) {
    e.name in rows && rows[e.name].hash == e.hash
  }

  /** The vector a build uses for an entry. */
  function VectorFor(svc: Service, embedder: Option<string>, rows: Rows, e: Entry): Vec {
    match embedder
    case None => []
    case Some(model) => if Reusable(rows, e) then rows[e.name].vector else svc.embed(model, EmbedText(e))
  }

  predicate DistinctNames(corpus: seq<Entry>) {
    forall i, j :: 0 <= i < j < |corpus| ==> corpus[i].name != corpus[j].name
  }

  function Built(svc: Service, embedder: Option<string>, rows: Rows, corpus: seq<Entry>): Snapshot {
    if corpus == [] then Snapshot([], map[], []) else
      var e, s := corpus[|corpus| - 1], Built(svc, embedder, rows, corpus[..|corpus| - 1]);
      Snapshot(s.names + [e.name], s.entries[e.name := e],
               if embedder.Some? then s.matrix + [svc.normalize(VectorFor(svc, embedder, rows, e))] else s.matrix)
  }

  function ToSave(svc: Service, embedder: Option<string>, rows: Rows, corpus: seq<Entry>): Rows {
    if corpus == [] then map[] else
      var e := corpus[|corpus| - 1];
      ToSave(svc, embedder, rows, corpus[..|corpus| - 1])[e.name :=
        CacheEntry(e.hash, VectorFor(svc, embedder, rows, e), e.description, e.path, e.body)]
  }

  /** The index as it is with nothing reused. */
  function Scratch(svc: Service, embedder: Option<string>, corpus: seq<Entry>): Snapshot {
    Built(svc, embedder, map[], corpus)
  }

  // ----------------------------------------------------------------- the object

  class Index {
    const svc: Service
    const embedder: Option<string>
    var names: seq<string>
    var entries: map<string, Entry>
    var matrix: seq<Vec>
    var built: bool

    constructor (svc: Service, embedder: Option<string>)
      ensures this.svc == svc && this.embedder == embedder && !built
    {
      this.svc, this.embedder, names, entries, matrix, built := svc, embedder, [], map[], [], false;
    }

    function View(): Snapshot
      reads this
    {
      Snapshot(names, entries, matrix)
    }

    /** Texts in, vectors out, or an error. */
    method Embed(texts: seq<string>, fails: bool) returns (vecs: Option<seq<Vec>>)
      requires embedder.Some?
      ensures vecs.None? <==> fails
      ensures vecs.Some? ==> |vecs.value| == |texts|
      ensures vecs.Some? ==> forall i :: 0 <= i < |texts| ==> vecs.value[i] == svc.embed(embedder.value, texts[i])
    {
      if fails { return None; }
      return Some(seq(|texts|, i requires 0 <= i < |texts| => svc.embed(embedder.value, texts[i])));
    }

    /** First loop: what can be reused, and what has to be embedded. */
    method Divide(corpus: seq<Entry>, cached: Rows)
      returns (reuse: map<string, Vec>, toNames: seq<string>, toTexts: seq<string>)
      ensures reuse == ReuseOf(embedder, cached, corpus)
      ensures toNames == Names(ToEmbed(embedder, cached, corpus)) && toTexts == Texts(ToEmbed(embedder, cached, corpus))
    {
      reuse, toNames, toTexts := map[], [], [];
      var i := 0;
      while i < |corpus|
        invariant 0 <= i <= |corpus| && reuse == ReuseOf(embedder, cached, corpus[..i])
        invariant toNames == Names(ToEmbed(embedder, cached, corpus[..i]))
        invariant toTexts == Texts(ToEmbed(embedder, cached, corpus[..i]))
      {
        var e := corpus[i];
        assert corpus[..i + 1][..i] == corpus[..i];
        if embedder.None? {
          reuse := reuse[e.name := []];
        } else if e.name in cached && cached[e.name].hash == e.hash {
          reuse := reuse[e.name := cached[e.name].vector];
        } else {
          toNames, toTexts := toNames + [e.name], toTexts + [EmbedText(e)];
        }
        i := i + 1;
      }
      assert corpus[..i] == corpus;
    }

    method Collect(names: seq<string>, vecs: seq<Vec>, ghost es: seq<Entry>) returns (found: map<string, Vec>)
      requires embedder.Some? && names == Names(es) && |vecs| == |es|
      requires forall i :: 0 <= i < |es| ==> vecs[i] == svc.embed(embedder.value, Texts(es)[i])
      ensures found == Embedded(svc, embedder, es)
    {
      found := map[];
      var i := 0;
      while i < |names|
        invariant 0 <= i <= |names| && found == Embedded(svc, embedder, es[..i])
      {
        assert es[..i + 1][..i] == es[..i];
        found := found[names[i] := vecs[i]];
        i := i + 1;
      }
      assert es[..i] == es;
    }

    /** The vectors of what cannot be reused, if there is anything to embed. */
    method FindVectors(names: seq<string>, texts: seq<string>, fails: bool, ghost es: seq<Entry>)
      returns (found: Option<map<string, Vec>>)
      requires names == Names(es) && texts == Texts(es) && (embedder.None? ==> es == [])
      ensures found.None? <==> fails && es != []
      ensures found.Some? ==> found.value == Embedded(svc, embedder, es)
    {
      if texts == [] { return Some(map[]); }
      var vecs := Embed(texts, fails);
      if vecs.None? { return None; }
      var vectors := Collect(names, vecs.value, es);
      return Some(vectors);
    }

    /** Second loop: the new snapshot and what to save. */
    method Assemble(corpus: seq<Entry>, reuse: map<string, Vec>, found: map<string, Vec>, ghost cached: Rows)
      returns (s: Snapshot, save: Rows)
      requires DistinctNames(corpus)
      requires reuse == ReuseOf(embedder, cached, corpus) && found == FoundIn(svc, embedder, cached, corpus)
      ensures s == Built(svc, embedder, cached, corpus) && save == ToSave(svc, embedder, cached, corpus)
    {
      var names0: seq<string>, entries0: map<string, Entry>, matrix0: seq<Vec> := [], map[], [];
      save := map[];
      var i := 0;
      while i < |corpus|
        invariant 0 <= i <= |corpus| && save == ToSave(svc, embedder, cached, corpus[..i])
        invariant Snapshot(names0, entries0, matrix0) == Built(svc, embedder, cached, corpus[..i])
      {
        var e := corpus[i];
        assert corpus[..i + 1][..i] == corpus[..i];
        VectorFound(svc, embedder, cached, corpus, i);
        var v := if e.name in reuse then reuse[e.name] else found[e.name];
        names0, entries0 := names0 + [e.name], entries0[e.name := e];
        if embedder.Some? { matrix0 := matrix0 + [svc.normalize(v)]; }
        save := save[e.name := CacheEntry(e.hash, v, e.description, e.path, e.body)];
        i := i + 1;
      }
      assert corpus[..i] == corpus;
      s := Snapshot(names0, entries0, matrix0);
    }

    /** `buildOnce`: on success the index is the build over the rows read, and `save` is what
        the cache is asked to keep; on failure the index stays as it was.  It fails exactly if
        the embedding service is asked for something and `fails`; `asked` are the texts. */
    method BuildOnce(corpus: seq<Entry>, load: Option<Rows>, fails: bool)
      returns (ok: bool, save: Rows, asked: seq<string>)
      requires DistinctNames(corpus)
      modifies this
      ensures var rows := if load.Some? then load.value else map[];
        if ok then View() == Built(svc, embedder, rows, corpus) && save == ToSave(svc, embedder, rows, corpus) && built
        else View() == old(View()) && built == old(built)
      ensures asked == Texts(ToEmbed(embedder, if load.Some? then load.value else map[], corpus))
      ensures ok <==> !fails || asked == []
    {
      var cached := if load.Some? then load.value else map[];
      save := map[];
      var reuse, toNames;
      reuse, toNames, asked := Divide(corpus, cached);
      NothingToEmbed(embedder, cached, corpus);
      FoundIsEmbedded(svc, embedder, cached, corpus);
      var found := FindVectors(toNames, asked, fails, ToEmbed(embedder, cached, corpus));
      if found.None? { return false, save, asked; }
      var s;
      s, save := Assemble(corpus, reuse, found.value, cached);
      names, entries, matrix, built, ok := s.names, s.entries, s.matrix, true, true;
    }
  }

  predicate Kept(embedder: Option<string>, cached: Rows, e: Entry) {
    embedder.None? || Reusable(cached, e)
  }

  function ReuseOf(embedder: Option<string>, cached: Rows, corpus: seq<Entry>): map<string, Vec> {
    if corpus == [] then map[] else
      var e, r := corpus[|corpus| - 1], ReuseOf(embedder, cached, corpus[..|corpus| - 1]);
      if !Kept(embedder, cached, e) then r else r[e.name := if embedder.None? then [] else cached[e.name].vector]
  }

  function ToEmbed(embedder: Option<string>, cached: Rows, corpus: seq<Entry>): seq<Entry> {
    if corpus == [] then [] else
      var e := corpus[|corpus| - 1];
      ToEmbed(embedder, cached, corpus[..|corpus| - 1]) + if Kept(embedder, cached, e) then [] else [e]
  }

  function Names(es: seq<Entry>): seq<string> { seq(|es|, i requires 0 <= i < |es| => es[i].name) }

  function Texts(es: seq<Entry>): seq<string> { seq(|es|, i requires 0 <= i < |es| => EmbedText(es[i])) }

  function Embedded(svc: Service, embedder: Option<string>, es: seq<Entry>): map<string, Vec> {
    if es == [] || embedder.None? then map[] else
      Embedded(svc, embedder, es[..|es| - 1])[es[|es| - 1].name := svc.embed(embedder.value, EmbedText(es[|es| - 1]))]
  }

  lemma {:induction false} NothingToEmbed(embedder: Option<string>, cached: Rows, corpus: seq<Entry>)
    ensures embedder.None? ==> ToEmbed(embedder, cached, corpus) == []
  {
    if corpus != [] { NothingToEmbed(embedder, cached, corpus[..|corpus| - 1]); }
  }

  predicate NameAmong(corpus: seq<Entry>, name: string) {
    exists i :: 0 <= i < |corpus| && corpus[i].name == name
  }

  lemma {:induction false} AbsentName(embedder: Option<string>, cached: Rows, corpus: seq<Entry>, name: string)
    requires !NameAmong(corpus, name)
    ensures name !in ReuseOf(embedder, cached, corpus)
  {
    if corpus != [] {
      var init := corpus[..|corpus| - 1];
      assert !NameAmong(init, name);
      AbsentName(embedder, cached, init, name);
      assert corpus[|corpus| - 1].name != name;
    }
  }

  lemma {:induction false} EmbeddedLast(svc: Service, embedder: Option<string>, es: seq<Entry>, e: Entry)
    requires embedder.Some?
    ensures var vec := svc.embed(embedder.value, EmbedText(e));
            Embedded(svc, embedder, es + [e]) == Embedded(svc, embedder, es)[e.name := vec]
  {
    assert (es + [e])[..|es|] == es;
  }

  predicate Found(reuse: map<string, Vec>, found: map<string, Vec>, name: string, v: Vec) {
    if name in reuse then reuse[name] == v else name in found && found[name] == v
  }

  /** The embedded vectors, one entry after the other. */
  function FoundIn(svc: Service, embedder: Option<string>, cached: Rows, corpus: seq<Entry>): map<string, Vec> {
    if corpus == [] then map[] else
      var e, found := corpus[|corpus| - 1], FoundIn(svc, embedder, cached, corpus[..|corpus| - 1]);
      if Kept(embedder, cached, e) then found else found[e.name := svc.embed(embedder.value, EmbedText(e))]
  }

  lemma {:induction false} FoundIsEmbedded(svc: Service, embedder: Option<string>, cached: Rows, corpus: seq<Entry>)
    ensures FoundIn(svc, embedder, cached, corpus) == Embedded(svc, embedder, ToEmbed(embedder, cached, corpus))
  {
    if corpus != [] {
      var init, e := corpus[..|corpus| - 1], corpus[|corpus| - 1];
      FoundIsEmbedded(svc, embedder, cached, init);
      if Kept(embedder, cached, e) {
        assert ToEmbed(embedder, cached, corpus) == ToEmbed(embedder, cached, init);
      } else {
        EmbeddedLast(svc, embedder, ToEmbed(embedder, cached, init), e);
      }
    }
  }

  lemma ReuseStep(embedder: Option<string>, cached: Rows, init: seq<Entry>, e: Entry)
    ensures ReuseOf(embedder, cached, init + [e]) ==
      if !Kept(embedder, cached, e) then ReuseOf(embedder, cached, init)
      else ReuseOf(embedder, cached, init)[e.name := if embedder.None? then [] else cached[e.name].vector]
  {
    assert (init + [e])[..|init|] == init;
  }

  /** Every entry's vector is found, in one of the two places: names are distinct. */
  lemma {:induction false} VectorFound(svc: Service, embedder: Option<string>, cached: Rows, corpus: seq<Entry>, k: nat)
    requires DistinctNames(corpus) && k < |corpus|
    ensures Found(ReuseOf(embedder, cached, corpus), FoundIn(svc, embedder, cached, corpus), corpus[k].name,
        VectorFor(svc, embedder, cached, corpus[k]))
  {
    var init, last := corpus[..|corpus| - 1], corpus[|corpus| - 1];
    assert corpus == init + [last];
    ReuseStep(embedder, cached, init, last);
    if k < |init| {
      assert init[k].name != last.name;
      VectorFound(svc, embedder, cached, init, k);
    } else {
      assert !NameAmong(init, last.name);
      AbsentName(embedder, cached, init, last.name);
    }
  }

  // ------------------------------------------------------------------ the law

  /** Entries that can be scanned.  Name and content hash determine the row of every model. */
  ghost predicate Determined(svc: Service, scannable: iset<Entry>) {
    forall e, f, model :: e in scannable && f in scannable && e.name == f.name && e.hash == f.hash && model != LEXICAL
      ==> svc.Row(model, e) == svc.Row(model, f)
  }

  /** One successful build.  `loaded` says whether the cache could be read; what `Save` left
      behind may be anything between the old rows and the new. */
  datatype Build = Build(embedder: Option<string>, corpus: seq<Entry>, loaded: bool, left: Rows)

  function Seen(cache: Cache, b: Build): Rows {
    if b.loaded then RowsFor(cache, KeyOf(b.embedder)) else map[]
  }

  ghost predicate Mixed(was: Rows, now: Rows, left: Rows) {
    forall n :: n in left ==> (n in was && left[n] == was[n]) || (n in now && left[n] == now[n])
  }

  ghost predicate History(svc: Service, scannable: iset<Entry>, caches: seq<Cache>, builds: seq<Build>) {
    && |caches| == |builds| + 1 && caches[0] == map[]
    && forall i {:trigger builds[i]} ::
      0 <= i < |builds| ==> HistoryStep(svc, scannable, caches[i], builds[i], caches[i + 1])
  }

  ghost predicate HistoryStep(svc: Service, scannable: iset<Entry>, cache: Cache, b: Build, next: Cache) {
    && b.embedder != Some(LEXICAL)
    && (forall e :: e in b.corpus ==> e in scannable)
    && Mixed(RowsFor(cache, KeyOf(b.embedder)), ToSave(svc, b.embedder, Seen(cache, b), b.corpus), b.left)
    && next == cache[KeyOf(b.embedder) := b.left]
  }

  /** Every cached vector is right for every entry it could be reused for. */
  ghost predicate RowsOk(svc: Service, scannable: iset<Entry>, model: string, rows: Rows) {
    forall e :: e in scannable && Reusable(rows, e) ==> svc.normalize(rows[e.name].vector) == svc.Row(model, e)
  }

  ghost predicate CacheOk(svc: Service, scannable: iset<Entry>, cache: Cache) {
    forall model :: model in cache && model != LEXICAL ==> RowsOk(svc, scannable, model, cache[model])
  }

  /** With right rows a build is the build from scratch. */
  lemma {:induction false} RightRowsBuildScratch(svc: Service, scannable: iset<Entry>, embedder: Option<string>,
          rows: Rows, corpus: seq<Entry>)
    requires embedder.Some? ==> RowsOk(svc, scannable, embedder.value, rows)
    requires forall e :: e in corpus ==> e in scannable
    ensures Built(svc, embedder, rows, corpus) == Scratch(svc, embedder, corpus)
  {
    if corpus != [] {
      RightRowsBuildScratch(svc, scannable, embedder, rows, corpus[..|corpus| - 1]);
      assert corpus[|corpus| - 1] in scannable;
    }
  }

  /** What a build saves is right again. */
  lemma {:induction false} SavedRowsAreRight(svc: Service, scannable: iset<Entry>, model: string, rows: Rows,
          corpus: seq<Entry>)
    requires Determined(svc, scannable) && RowsOk(svc, scannable, model, rows) && model != LEXICAL
    requires forall e :: e in corpus ==> e in scannable
    ensures RowsOk(svc, scannable, model, ToSave(svc, Some(model), rows, corpus))
  {
    if corpus != [] {
      var last := corpus[|corpus| - 1];
      SavedRowsAreRight(svc, scannable, model, rows, corpus[..|corpus| - 1]);
      assert last in scannable;
      assert svc.normalize(VectorFor(svc, Some(model), rows, last)) == svc.Row(model, last);
    }
  }

  lemma MixedIsRight(svc: Service, scannable: iset<Entry>, model: string, was: Rows, now: Rows, left: Rows)
    requires RowsOk(svc, scannable, model, was) && RowsOk(svc, scannable, model, now) && Mixed(was, now, left)
    ensures RowsOk(svc, scannable, model, left)
  {
  }

  lemma StepKeeps(svc: Service, scannable: iset<Entry>, cache: Cache, b: Build, next: Cache)
    requires Determined(svc, scannable) && CacheOk(svc, scannable, cache) && HistoryStep(svc, scannable, cache, b, next)
    ensures CacheOk(svc, scannable, next) && IsScratch(svc, cache, b)
  {
    if b.embedder.Some? {
      var model := b.embedder.value;
      assert RowsOk(svc, scannable, model, RowsFor(cache, model));
      assert RowsOk(svc, scannable, model, Seen(cache, b));
      SavedRowsAreRight(svc, scannable, model, Seen(cache, b), b.corpus);
      MixedIsRight(svc, scannable, model, RowsFor(cache, model), ToSave(svc, b.embedder, Seen(cache, b), b.corpus),
          b.left);
    }
    RightRowsBuildScratch(svc, scannable, b.embedder, Seen(cache, b), b.corpus);
  }

  lemma {:induction false} HistoryKeeps(svc: Service, scannable: iset<Entry>, caches: seq<Cache>, builds: seq<Build>,
          i: nat)
    requires Determined(svc, scannable) && History(svc, scannable, caches, builds) && i <= |builds|
    ensures CacheOk(svc, scannable, caches[i])
  {
    if i > 0 {
      HistoryKeeps(svc, scannable, caches, builds, i - 1);
      StepKeeps(svc, scannable, caches[i - 1], builds[i - 1], caches[i]);
    }
  }

  /** The build `b` on the cache `cache` gives the index from scratch. */
  predicate IsScratch(svc: Service, cache: Cache, b: Build) {
    Built(svc, b.embedder, Seen(cache, b), b.corpus) == Scratch(svc, b.embedder, b.corpus)
  }

  /** Every build of a history does. */
  ghost predicate AlwaysScratch(svc: Service, caches: seq<Cache>, builds: seq<Build>)
    requires |caches| == |builds| + 1
  {
    forall i {:trigger builds[i]} :: 0 <= i < |builds| ==> IsScratch(svc, caches[i], builds[i])
  }

  lemma DeterminedIsEnough(svc: Service, scannable: iset<Entry>, caches: seq<Cache>, builds: seq<Build>)
    requires Determined(svc, scannable) && History(svc, scannable, caches, builds)
    ensures AlwaysScratch(svc, caches, builds)
  {
    forall i | 0 <= i < |builds|
      ensures IsScratch(svc, caches[i], builds[i])
    {
      HistoryKeeps(svc, scannable, caches, builds, i);
      StepKeeps(svc, scannable, caches[i], builds[i], caches[i + 1]);
    }
  }

  /** The incremental index is the index from scratch, over every history of builds with
      changing corpora, models, unreadable caches and failed or partial saves, exactly when
      name and content hash determine the row. */
  lemma IncrementalIffDetermined(svc: Service, scannable: iset<Entry>)
    ensures Determined(svc, scannable) <==>
      forall caches, builds {:trigger History(svc, scannable, caches, builds)} ::
        History(svc, scannable, caches, builds) ==> AlwaysScratch(svc, caches, builds)
  {
    if Determined(svc, scannable) {
      forall caches, builds | History(svc, scannable, caches, builds) ensures AlwaysScratch(svc, caches, builds) {
        DeterminedIsEnough(svc, scannable, caches, builds);
      }
    } else {
      var e, f, model :| e in scannable && f in scannable && e.name == f.name && e.hash == f.hash && model != LEXICAL
          && svc.Row(model, e) != svc.Row(model, f);
      var caches, builds := Stale(svc, scannable, e, f, model);
      assert History(svc, scannable, caches, builds) && !AlwaysScratch(svc, caches, builds);
    }
  }

  lemma BuiltOne(svc: Service, model: string, rows: Rows, e: Entry)
    ensures Built(svc, Some(model), rows, [e]).matrix == [svc.normalize(VectorFor(svc, Some(model), rows, e))]
  {
    assert [e][..0] == [];
    assert Built(svc, Some(model), rows, []).matrix == [];
  }

  /** Build with one, then with the other of two entries that the cache cannot tell apart. */
  lemma Stale(svc: Service, scannable: iset<Entry>, e: Entry, f: Entry, model: string)
    returns (caches: seq<Cache>, builds: seq<Build>)
    requires e in scannable && f in scannable && e.name == f.name && e.hash == f.hash && model != LEXICAL
    requires svc.Row(model, e) != svc.Row(model, f)
    ensures History(svc, scannable, caches, builds) && !AlwaysScratch(svc, caches, builds)
  {
    var one := ToSave(svc, Some(model), map[], [e]);
    assert [e][..0] == [] && [f][..0] == [];
    BuiltOne(svc, model, one, f);
    BuiltOne(svc, model, map[], f);
    var two := ToSave(svc, Some(model), one, [f]);
    builds := [Build(Some(model), [e], true, one), Build(Some(model), [f], true, two)];
    var c1: Cache := map[model := one];
    caches := [map[], c1, c1[model := two]];
    assert builds[1].embedder == Some(model) && Seen(caches[1], builds[1]) == one;
  }
}
