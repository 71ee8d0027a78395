/** What a build of the skill index puts where, entry by entry. */
module SkillRows {
  import opened Text
  import opened Skills

  /** The row of the cache that stands for an entry: its name, and the same content hash. */
  predicate Unchanged(rows: Rows, e: Entry) {
    e.name in rows && rows[e.name].hash == e.hash
  }

  /** The vector of an entry: the cached one if the entry is unchanged, else what the embedding
      service makes of "name: description". */
  function VectorOf(svc: Service, model: string, rows: Rows, e: Entry): Vec {
    if Unchanged(rows, e) then rows[e.name].vector else svc.embed(model, e.name + ": " + e.description)
  }

  /** The index lists every entry of the corpus in order, and its row of the matrix is the
      normalized vector of that very entry; without an embedder there is no matrix. */
  lemma {:induction false} BuiltAt(svc: Service, embedder: Option<string>, rows: Rows, corpus: seq<Entry>, i: nat)
    requires i < |corpus|
    ensures var s := Built(svc, embedder, rows, corpus);
            && |s.names| == |corpus| && s.names[i] == corpus[i].name
            && (embedder.None? ==> s.matrix == [])
            && (embedder.Some? ==>
                  |s.matrix| == |corpus|
                  && s.matrix[i] == svc.normalize(VectorOf(svc, embedder.value, rows, corpus[i])))
  {
    var init, last := corpus[..|corpus| - 1], |corpus| - 1;
    BuiltSizes(svc, embedder, rows, init);
    if i < last {
      BuiltAt(svc, embedder, rows, init, i);
    }
  }

  lemma {:induction false} BuiltSizes(svc: Service, embedder: Option<string>, rows: Rows, corpus: seq<Entry>)
    ensures |Built(svc, embedder, rows, corpus).names| == |corpus|
    ensures |Built(svc, embedder, rows, corpus).matrix| == if embedder.Some? then |corpus| else 0
  {
    if corpus != [] { BuiltSizes(svc, embedder, rows, corpus[..|corpus| - 1]); }
  }

  /** A name leads to the entry it is the name of. */
  lemma {:induction false} EntryAt(svc: Service, embedder: Option<string>, rows: Rows, corpus: seq<Entry>, i: nat)
    requires DistinctNames(corpus) && i < |corpus|
    ensures var entries := Built(svc, embedder, rows, corpus).entries;
            corpus[i].name in entries && entries[corpus[i].name] == corpus[i]
  {
    if i < |corpus| - 1 {
      EntryAt(svc, embedder, rows, corpus[..|corpus| - 1], i);
      assert corpus[i].name != corpus[|corpus| - 1].name;
    }
  }

  /** No other name leads anywhere. */
  lemma {:induction false} EntryNames(svc: Service, embedder: Option<string>, rows: Rows, corpus: seq<Entry>,
                                      name: string)
    ensures name in Built(svc, embedder, rows, corpus).entries <==> NameAmong(corpus, name)
  {
    if corpus != [] {
      EntryNames(svc, embedder, rows, corpus[..|corpus| - 1], name);
      NameAmongMore(corpus, name);
    }
  }

  lemma NameAmongMore(corpus: seq<Entry>, name: string)
    requires corpus != []
    ensures NameAmong(corpus, name) <==> NameAmong(corpus[..|corpus| - 1], name) || corpus[|corpus| - 1].name == name
  {
    var init := corpus[..|corpus| - 1];
    if NameAmong(init, name) {
      var i :| 0 <= i < |init| && init[i].name == name;
      assert corpus[i].name == name;
    }
    if i :| 0 <= i < |corpus| && corpus[i].name == name {
      assert i < |init| ==> init[i].name == name;
    }
  }

  /** What is saved has one row for every entry, with what is needed to find it unchanged the
      next time and to show it without reading its file ... */
  lemma {:induction false} SavedAt(svc: Service, model: string, rows: Rows, corpus: seq<Entry>, i: nat)
    requires DistinctNames(corpus) && i < |corpus|
    ensures var e, save := corpus[i], ToSave(svc, Some(model), rows, corpus);
            && e.name in save
            && save[e.name] == CacheEntry(e.hash, VectorOf(svc, model, rows, e), e.description, e.path, e.body)
  {
    if i < |corpus| - 1 {
      SavedAt(svc, model, rows, corpus[..|corpus| - 1], i);
      assert corpus[i].name != corpus[|corpus| - 1].name;
    }
  }

  /** ... and no other row. */
  lemma {:induction false} SavedNames(svc: Service, model: string, rows: Rows, corpus: seq<Entry>, name: string)
    ensures name in ToSave(svc, Some(model), rows, corpus) <==> NameAmong(corpus, name)
  {
    if corpus != [] {
      SavedNames(svc, model, rows, corpus[..|corpus| - 1], name);
      NameAmongMore(corpus, name);
    }
  }

  /** What is saved finds every entry unchanged: the next build of the same corpus asks the
      embedding service for nothing. */
  lemma NothingAskedAgain(svc: Service, model: string, rows: Rows, corpus: seq<Entry>)
    requires DistinctNames(corpus)
    ensures ToEmbed(Some(model), ToSave(svc, Some(model), rows, corpus), corpus) == []
  {
    var save := ToSave(svc, Some(model), rows, corpus);
    forall i | 0 <= i < |corpus| ensures Unchanged(save, corpus[i]) { SavedAt(svc, model, rows, corpus, i); }
    NothingChanged(Some(model), save, corpus);
  }

  /** A build reads the rows of its own model, and with a cache that cannot be read it asks for
      everything again. */
  lemma UnreadAsksAll(cache: Cache, b: Build)
    requires b.embedder.Some?
    ensures b.loaded ==> Seen(cache, b) == if b.embedder.value in cache then cache[b.embedder.value] else map[]
    ensures !b.loaded ==> ToEmbed(b.embedder, Seen(cache, b), b.corpus) == b.corpus
  {
    if !b.loaded { AllChanged(b.embedder.value, map[], b.corpus); }
  }

  lemma {:induction false} AllChanged(model: string, rows: Rows, corpus: seq<Entry>)
    requires forall i :: 0 <= i < |corpus| ==> !Unchanged(rows, corpus[i])
    ensures ToEmbed(Some(model), rows, corpus) == corpus
  {
    if corpus != [] {
      var init, last := corpus[..|corpus| - 1], corpus[|corpus| - 1];
      assert corpus == init + [last];
      AllChanged(model, rows, init);
      AskedLast(model, rows, init, last);
    }
  }

  lemma AskedLast(model: string, rows: Rows, init: seq<Entry>, last: Entry)
    requires !Unchanged(rows, last)
    ensures ToEmbed(Some(model), rows, init + [last]) == ToEmbed(Some(model), rows, init) + [last]
  {
    assert (init + [last])[..|init|] == init;
  }

  lemma {:induction false} NothingChanged(embedder: Option<string>, rows: Rows, corpus: seq<Entry>)
    requires forall i :: 0 <= i < |corpus| ==> Unchanged(rows, corpus[i])
    ensures ToEmbed(embedder, rows, corpus) == []
  {
    if corpus != [] { NothingChanged(embedder, rows, corpus[..|corpus| - 1]); }
  }

  /** The service is asked for exactly the entries that are not unchanged, and for none without
      an embedder. */
  lemma {:induction false} ToEmbedIs(embedder: Option<string>, rows: Rows, corpus: seq<Entry>)
    ensures forall e :: e in ToEmbed(embedder, rows, corpus) <==>
                        e in corpus && embedder.Some? && !Unchanged(rows, e)
    ensures |ToEmbed(embedder, rows, corpus)| <= |corpus|
  {
    if corpus != [] {
      var init, last := corpus[..|corpus| - 1], corpus[|corpus| - 1];
      assert corpus == init + [last];
      ToEmbedIs(embedder, rows, init);
    }
  }
}
