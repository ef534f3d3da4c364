/** What ends up in the records of a run (agentpick_data/src/hf_vectorizer/vectorizer.py),
    field by field, and which models are skipped. */
module RecordFacts {
  import opened Basics
  import opened Readme
  import opened Vectorizer

  // ----- Chunks -----

  ghost predicate IsChunkOf(c: Chunk, sections: seq<Section>, chunk: Chunker) {
    && c.sectionIndex < |sections|
    && c.header == sections[c.sectionIndex].header
    && c.chunkIndex < |chunk(sections[c.sectionIndex].content)|
    && c.text == chunk(sections[c.sectionIndex].content)[c.chunkIndex]
  }

  lemma ChunksNext(sections: seq<Section>, chunk: Chunker, init: seq<Section>, last: Section)
    requires sections == init + [last]
    ensures AllChunks(sections, chunk) == AllChunks(init, chunk) + SectionChunks(last, |init|, chunk(last.content))
  {
    assert sections[..|sections| - 1] == init;
  }

  /** The chunks are the pieces of the contents of the sections, each with its section's
      header and its two numbers. */
  lemma {:induction false} ChunkIff(sections: seq<Section>, chunk: Chunker, c: Chunk)
    ensures c in AllChunks(sections, chunk) <==> IsChunkOf(c, sections, chunk)
  {
    if sections != [] {
      var n := |sections| - 1;
      var init, last := sections[..n], sections[n];
      assert sections == init + [last];
      ChunkIff(init, chunk, c);
      ChunksNext(sections, chunk, init, last);
      LastChunks(last, n, chunk(last.content), c);
    }
  }

  lemma LastChunks(s: Section, n: nat, pieces: seq<string>, c: Chunk)
    ensures c in SectionChunks(s, n, pieces)
       <==> c.sectionIndex == n && c.header == s.header && c.chunkIndex < |pieces| && c.text == pieces[c.chunkIndex]
  {
    if c.sectionIndex == n && c.header == s.header && c.chunkIndex < |pieces| && c.text == pieces[c.chunkIndex] {
      assert SectionChunks(s, n, pieces)[c.chunkIndex] == c;
    }
  }

  ghost predicate ChunkBefore(a: Chunk, b: Chunk) {
    a.sectionIndex < b.sectionIndex || (a.sectionIndex == b.sectionIndex && a.chunkIndex < b.chunkIndex)
  }

  /** They come section by section and piece by piece. */
  lemma {:induction false} ChunksInOrder(sections: seq<Section>, chunk: Chunker, i: nat, j: nat)
    requires i < j < |AllChunks(sections, chunk)|
    ensures ChunkBefore(AllChunks(sections, chunk)[i], AllChunks(sections, chunk)[j])
  {
    var n := |sections| - 1;
    var init, last := sections[..n], sections[n];
    assert sections == init + [last];
    ChunksNext(sections, chunk, init, last);
    var before := AllChunks(init, chunk);
    if j < |before| {
      ChunksInOrder(init, chunk, i, j);
    } else if i < |before| {
      ChunkIff(init, chunk, before[i]);
    }
  }

  // ----- Embeddings -----

  lemma {:induction false} BatchStartIsProduct(size: nat, b: nat)
    ensures BatchStart(size, b) == b * size
  {
    if b > 0 {
      BatchStartIsProduct(size, b - 1);
      assert b * size == (b - 1) * size + size;
    }
  }

  lemma InBatch(size: nat, b: nat, t: nat)
    requires size > 0
    ensures BatchStart(size, b) <= t < BatchStart(size, b + 1) <==> t / size == b
  {
    BatchStartIsProduct(size, b);
    BatchStartIsProduct(size, b + 1);
    assert (b + 1) * size == b * size + size;
    if b * size <= t < b * size + size {
      QuotientIs(t, size, b);
    }
  }

  lemma QuotientIs(t: nat, size: nat, b: nat)
    requires size > 0 && b * size <= t < b * size + size
    ensures t / size == b
  {
    var q := t / size;
    DivisionBounds(t, size);
    ProductGrows(q, b, size);
    ProductGrows(b, q, size);
  }

  lemma DivisionBounds(t: nat, size: nat)
    requires size > 0
    ensures t / size * size <= t < t / size * size + size
  {
  }

  lemma {:induction false} ProductGrows(x: nat, y: nat, size: nat)
    ensures x < y ==> x * size + size <= y * size
  {
    if x < y {
      ProductGrows(x, y - 1, size);
      assert y * size == (y - 1) * size + size;
    }
  }

  /** A text is embedded exactly when its batch, number `t / size`, succeeds. */
  lemma {:induction false} EmbeddedIff(n: nat, size: nat, ok: nat -> bool, b: nat, t: nat)
    requires size > 0
    ensures t in Embedded(n, size, ok, b) <==> t < n && t < BatchStart(size, b) && ok(t / size)
  {
    if b > 0 {
      EmbeddedIff(n, size, ok, b - 1, t);
      InBatch(size, b - 1, t);
      var lo, hi := Cut(n, BatchStart(size, b - 1)), Cut(n, BatchStart(size, b));
      RangeMember(lo, hi, t);
    }
  }

  lemma RangeMember(lo: nat, hi: nat, t: nat)
    requires lo <= hi
    ensures t in Range(lo, hi) <==> lo <= t < hi
  {
    if lo <= t < hi {
      assert Range(lo, hi)[t - lo] == t;
    }
  }

  // ----- Records -----

  ghost predicate Describes(r: Record, m: Model, chunk: Chunker) {
    && m.readme.Some? && r.modelId == m.id
    && var sections := Sections(m.readme.value);
      && r.numSections == |sections| && r.sectionIndex < |sections|
      && r.header == sections[r.sectionIndex].header
      && r.chunkIndex < |chunk(sections[r.sectionIndex].content)|
      && r.text == chunk(sections[r.sectionIndex].content)[r.chunkIndex]
  }

  lemma RecordDescribes(m: Model, chunk: Chunker, size: nat, first: int, i: nat)
    requires size > 0 && m.readme.Some? && i < |RecordsOf(m, chunk, size, first)|
    ensures Describes(RecordsOf(m, chunk, size, first)[i], m, chunk)
  {
    var chunks := ModelChunks(m, chunk);
    var embedded := EmbeddedOf(m, chunks, size);
    EmbeddedInRange(|chunks|, size, m.batchOk, BatchCount(|chunks|, size));
    assert RecordsOf(m, chunk, size, first)[i] == RecordOf(m, chunks, embedded, |ModelSections(m)|, first, i);
    ChunkIff(ModelSections(m), chunk, chunks[i]);
  }

  ghost predicate FromModel(r: Record, models: seq<Model>, chunk: Chunker) {
    exists i :: 0 <= i < |models| && Describes(r, models[i], chunk)
      && models[i].downloads.Some? && models[i].downloads.value >= 10000
  }

  /** Every record of a run holds a piece of a section of its model's card, with that
      section's header and number, and the model has at least 10000 downloads. */
  lemma {:induction false} RunDescribes(models: seq<Model>, processed: set<string>, first: int, chunk: Chunker, size: nat, r: Record)
    requires size > 0 && r in RunModels(models, processed, first, chunk, size).records
    ensures FromModel(r, models, chunk)
  {
    var n := |models| - 1;
    var before := RunModels(models[..n], processed, first, chunk, size);
    if r in before.records {
      RunDescribes(models[..n], processed, first, chunk, size, r);
      var i :| 0 <= i < n && Describes(r, models[..n][i], chunk)
        && models[..n][i].downloads.Some? && models[..n][i].downloads.value >= 10000;
      assert models[i] == models[..n][i];
    } else {
      var records := NewRecords(models[n], before.processed, before.next, chunk, size);
      var i :| 0 <= i < |records| && records[i] == r;
      RecordDescribes(models[n], chunk, size, before.next, i);
    }
  }

  /** A model is processed exactly when it is new, has at least 10000 downloads and a card
      with a section, and one of its texts is in a batch that succeeds. */
  lemma ProcessedIff(m: Model, processed: set<string>, chunk: Chunker, size: nat)
    requires size > 0
    ensures IsProcessed(m, processed, chunk, size)
       <==> m.id !in processed && m.downloads.Some? && m.downloads.value >= 10000
            && m.readme.Some? && Sections(m.readme.value) != []
            && exists t: nat :: t < |AllChunks(Sections(m.readme.value), chunk)| && m.batchOk(t / size)
  {
    if m.readme.Some? {
      SomeEmbedded(|ModelChunks(m, chunk)|, size, m.batchOk);
    }
  }

  lemma SomeEmbedded(n: nat, size: nat, ok: nat -> bool)
    requires size > 0
    ensures Embedded(n, size, ok, BatchCount(n, size)) != [] <==> exists t: nat :: t < n && ok(t / size)
  {
    var embedded := Embedded(n, size, ok, BatchCount(n, size));
    forall t: nat ensures t in embedded <==> t < n && ok(t / size) {
      EmbeddedIff(n, size, ok, BatchCount(n, size), t);
    }
    if embedded != [] {
      assert embedded[0] in embedded;
    }
  }

  /** The processed set grows by exactly the models that have records. */
  lemma {:induction false} ProcessedHaveRecords(models: seq<Model>, processed: set<string>, first: int, chunk: Chunker, size: nat, id: string)
    requires size > 0
    ensures var p := RunModels(models, processed, first, chunk, size);
      id in p.processed <==> id in processed || exists r :: r in p.records && r.modelId == id
  {
    if models != [] {
      var n := |models| - 1;
      ProcessedHaveRecords(models[..n], processed, first, chunk, size, id);
      var before := RunModels(models[..n], processed, first, chunk, size);
      var records := NewRecords(models[n], before.processed, before.next, chunk, size);
      if models[n].id == id && IsProcessed(models[n], before.processed, chunk, size) {
        assert records[0] in before.records + records;
      }
    }
  }

  /** The first new id is 0 for an empty file and one more than the greatest stored id. */
  lemma {:induction false} StartIdIs(existing: seq<int>)
    requires forall i :: 0 <= i < |existing| ==> existing[i] >= 0
    ensures existing == [] ==> StartId(existing) == 0
    ensures existing != [] ==> exists i :: 0 <= i < |existing| && existing[i] == StartId(existing) - 1
    ensures forall i :: 0 <= i < |existing| ==> existing[i] <= StartId(existing) - 1
  {
    GreatestBounds(existing);
    if existing != [] {
      GreatestStored(existing);
    }
  }

  lemma {:induction false} GreatestStored(ids: seq<int>)
    requires ids != [] && forall i :: 0 <= i < |ids| ==> ids[i] >= 0
    ensures exists i :: 0 <= i < |ids| && ids[i] == Greatest(ids)
  {
    var n := |ids| - 1;
    var init := ids[..n];
    if n == 0 {
      assert init == [] && Greatest(ids) == ids[0];
    } else if Greatest(ids) == ids[n] {
    } else {
      GreatestStored(init);
      var i :| 0 <= i < |init| && init[i] == Greatest(init);
      assert ids[i] == Greatest(ids);
    }
  }
}
