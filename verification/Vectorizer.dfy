/** Record building and id allocation (agentpick_data/src/hf_vectorizer/vectorizer.py).
    Downloads, chunking and embedding results are inputs; an embedding is known by the
    text it was computed from. Storage writes do not fail; embedding batches may. */
module Vectorizer {
  import opened Basics
  import opened Readme
  import opened Storage

  const MIN_DOWNLOADS := 10000

  /** The embedding of text number `index` of its model. */
  datatype Embedding = Embedding(index: nat, text: string)

  datatype Chunk = Chunk(header: string, sectionIndex: nat, chunkIndex: nat, text: string)

  datatype Record = Record(id: int, modelId: string, header: string, sectionIndex: nat, chunkIndex: nat,
                           numSections: nat, text: string, vector: Embedding)

  /** A model: its download count and card text where they can be fetched, and which of
      its embedding batches succeed. */
  datatype Model = Model(id: string, downloads: Option<int>, readme: Option<string>, batchOk: nat -> bool)

  type Chunker = string -> seq<string>

  // ----- Texts of a model -----

  function SectionChunks(s: Section, i: nat, chunks: seq<string>): (r: seq<Chunk>)
    ensures |r| == |chunks|
  {
    seq(|chunks|, j requires 0 <= j < |chunks| => Chunk(s.header, i, j, chunks[j]))
  }

  function AllChunks(sections: seq<Section>, chunk: Chunker): seq<Chunk> {
    if sections == [] then []
    else
      var n := |sections| - 1;
      AllChunks(sections[..n], chunk) + SectionChunks(sections[n], n, chunk(sections[n].content))
  }

  /** The loops over sections and their chunks. */
  method PrepareChunks(sections: seq<Section>, chunk: Chunker) returns (prepared: seq<Chunk>)
    ensures prepared == AllChunks(sections, chunk)
  {
    prepared := [];
    for i := 0 to |sections|
      invariant prepared == AllChunks(sections[..i], chunk)
    {
      var section := sections[i];
      var chunks := chunk(section.content);
      ghost var before := prepared;
      for j := 0 to |chunks|
        invariant prepared == before + SectionChunks(section, i, chunks)[..j]
      {
        prepared := prepared + [Chunk(section.header, i, j, chunks[j])];
      }
      assert SectionChunks(section, i, chunks)[..|chunks|] == SectionChunks(section, i, chunks);
      assert sections[..i + 1][..i] == sections[..i];
    }
    assert sections[..|sections|] == sections;
  }

  // ----- Embedding in batches -----

  function BatchStart(size: nat, b: nat): nat { if b == 0 then 0 else BatchStart(size, b - 1) + size }

  function Range(lo: nat, hi: nat): (r: seq<nat>)
    requires lo <= hi
    ensures |r| == hi - lo && forall i :: 0 <= i < |r| ==> r[i] == lo + i
  {
    seq(hi - lo, i requires 0 <= i < hi - lo => lo + i)
  }

  function Cut(n: nat, x: nat): nat { if x < n then x else n }

  /** Numbers of the texts embedded by the first `b` batches; failed batches are skipped. */
  function Embedded(n: nat, size: nat, ok: nat -> bool, b: nat): seq<nat> {
    if b == 0 then []
    else
      var lo, hi := Cut(n, BatchStart(size, b - 1)), Cut(n, BatchStart(size, b));
      if ok(b - 1) && lo <= hi then Embedded(n, size, ok, b - 1) + Range(lo, hi) else Embedded(n, size, ok, b - 1)
  }

  /** Records pair text number `i` with the embedding that comes `i`-th. */
  ghost predicate Aligned(embedded: seq<nat>) {
    forall i :: 0 <= i < |embedded| ==> embedded[i] == i
  }

  /** No batch succeeds after one that failed. */
  ghost predicate OnlyLastBatchesFail(ok: nat -> bool, batches: nat) {
    forall b: nat, c: nat :: b < c < batches && ok(c) ==> ok(b)
  }

  ghost predicate AllBatchesOk(ok: nat -> bool, batches: nat) {
    forall b: nat :: b < batches ==> ok(b)
  }

  lemma {:induction false} EmbeddedLength(n: nat, size: nat, ok: nat -> bool, b: nat)
    requires size > 0 && (b > 0 ==> BatchStart(size, b - 1) < n)
    ensures |Embedded(n, size, ok, b)| <= Cut(n, BatchStart(size, b))
    ensures |Embedded(n, size, ok, b)| == Cut(n, BatchStart(size, b)) <==> AllBatchesOk(ok, b)
  {
    if b > 0 {
      assert b > 1 ==> BatchStart(size, b - 2) < n;
      EmbeddedLength(n, size, ok, b - 1);
      assert AllBatchesOk(ok, b) <==> AllBatchesOk(ok, b - 1) && ok(b - 1);
    }
  }

  lemma AlignedConcat(a: seq<nat>, lo: nat, hi: nat)
    requires lo < hi
    ensures Aligned(a + Range(lo, hi)) <==> Aligned(a) && |a| == lo
  {
    var all := a + Range(lo, hi);
    if Aligned(all) {
      assert all[|a|] == lo;
      forall i | 0 <= i < |a| ensures a[i] == i {
        assert all[i] == i;
      }
    }
  }

  /** Texts and embeddings stay aligned exactly when only the last batches fail. */
  lemma {:induction false} AlignedIffLastFail(n: nat, size: nat, ok: nat -> bool, b: nat)
    requires size > 0 && (b > 0 ==> BatchStart(size, b - 1) < n)
    ensures Aligned(Embedded(n, size, ok, b)) <==> OnlyLastBatchesFail(ok, b)
  {
    if b > 0 {
      assert b > 1 ==> BatchStart(size, b - 2) < n;
      AlignedIffLastFail(n, size, ok, b - 1);
      EmbeddedLength(n, size, ok, b - 1);
      var lo, hi := BatchStart(size, b - 1), Cut(n, BatchStart(size, b));
      AlignedConcat(Embedded(n, size, ok, b - 1), lo, hi);
      assert OnlyLastBatchesFail(ok, b) <==> OnlyLastBatchesFail(ok, b - 1) && (ok(b - 1) ==> AllBatchesOk(ok, b - 1));
    }
  }

  function BatchCount(n: nat, size: nat): (b: nat)
    requires size > 0
    ensures b > 0 ==> BatchStart(size, b - 1) < n
    ensures BatchStart(size, b) >= n
  {
    if n == 0 then 0 else BatchesFrom(n, size, 1)
  }

  function BatchesFrom(n: nat, size: nat, b: nat): (r: nat)
    requires size > 0 && b > 0 && BatchStart(size, b - 1) < n
    ensures r > 0 && BatchStart(size, r - 1) < n <= BatchStart(size, r)
    decreases n - BatchStart(size, b - 1)
  {
    if BatchStart(size, b) >= n then b else BatchesFrom(n, size, b + 1)
  }

  // ----- Records of a model -----

  /** What is embedded of a model, by text number. */
  function EmbeddedOf(m: Model, chunks: seq<Chunk>, size: nat): seq<nat>
    requires size > 0
  {
    Embedded(|chunks|, size, m.batchOk, BatchCount(|chunks|, size))
  }

  function ModelSections(m: Model): seq<Section> {
    if m.readme == None then [] else Sections(m.readme.value)
  }

  function ModelChunks(m: Model, chunk: Chunker): seq<Chunk> { AllChunks(ModelSections(m), chunk) }

  predicate Fetched(m: Model, processed: set<string>) {
    && m.id !in processed
    && m.downloads.Some? && m.downloads.value >= MIN_DOWNLOADS
    && m.readme.Some? && ModelSections(m) != []
  }

  /** Records are built: the model is new, popular, documented, and some batch succeeds. */
  predicate IsProcessed(m: Model, processed: set<string>, chunk: Chunker, size: nat)
    requires size > 0
  {
    Fetched(m, processed) && EmbeddedOf(m, ModelChunks(m, chunk), size) != []
  }

  function RecordOf(m: Model, chunks: seq<Chunk>, embedded: seq<nat>, sections: nat, first: int, i: nat): Record
    requires i < |embedded| && i < |chunks| && embedded[i] < |chunks|
  {
    var c := chunks[i];
    Record(first + i, m.id, c.header, c.sectionIndex, c.chunkIndex, sections, c.text,
           Embedding(embedded[i], chunks[embedded[i]].text))
  }

  lemma {:induction false} EmbeddedInRange(n: nat, size: nat, ok: nat -> bool, b: nat)
    requires size > 0
    ensures |Embedded(n, size, ok, b)| <= Cut(n, BatchStart(size, b)) <= n
    ensures forall i :: 0 <= i < |Embedded(n, size, ok, b)| ==> Embedded(n, size, ok, b)[i] < n
  {
    if b > 0 {
      EmbeddedInRange(n, size, ok, b - 1);
    }
  }

  function RecordsOf(m: Model, chunk: Chunker, size: nat, first: int): (r: seq<Record>)
    requires size > 0
    ensures |r| == |EmbeddedOf(m, ModelChunks(m, chunk), size)|
    ensures forall i :: 0 <= i < |r| ==> r[i].id == first + i && r[i].modelId == m.id
  {
    var chunks := ModelChunks(m, chunk);
    var embedded := EmbeddedOf(m, chunks, size);
    EmbeddedInRange(|chunks|, size, m.batchOk, BatchCount(|chunks|, size));
    seq(|embedded|, i requires 0 <= i < |embedded| => RecordOf(m, chunks, embedded, |ModelSections(m)|, first, i))
  }

  /** The loop that zips embeddings and texts: text number `i` goes with the embedding that
      came `i`-th, and the shorter list ends it. */
  method BuildRecords(m: Model, chunks: seq<Chunk>, embedded: seq<nat>, sections: nat, first: int) returns (records: seq<Record>)
    requires forall i :: 0 <= i < |embedded| ==> embedded[i] < |chunks|
    ensures |records| == Cut(|chunks|, |embedded|)
    ensures forall i :: 0 <= i < |records| ==> records[i] == RecordOf(m, chunks, embedded, sections, first, i)
  {
    records := [];
    for i := 0 to Cut(|chunks|, |embedded|)
      invariant |records| == i
      invariant forall j :: 0 <= j < i ==> records[j] == RecordOf(m, chunks, embedded, sections, first, j)
    {
      var embedding := Embedding(embedded[i], chunks[embedded[i]].text);
      var meta := chunks[i];
      records := records + [Record(first + i, m.id, meta.header, meta.sectionIndex, meta.chunkIndex, sections,
                                   chunks[i].text, embedding)];
    }
  }

  lemma AreRecords(m: Model, chunk: Chunker, size: nat, first: int, records: seq<Record>)
    requires size > 0
    requires var chunks, embedded := ModelChunks(m, chunk), EmbeddedOf(m, ModelChunks(m, chunk), size);
      && |embedded| <= |chunks|
      && (forall i :: 0 <= i < |embedded| ==> embedded[i] < |chunks|)
      && |records| == |embedded|
      && forall i :: 0 <= i < |records| ==> records[i] == RecordOf(m, chunks, embedded, |ModelSections(m)|, first, i)
    ensures records == RecordsOf(m, chunk, size, first)
  {
    var spec := RecordsOf(m, chunk, size, first);
    forall i | 0 <= i < |records| ensures records[i] == spec[i] {
    }
  }

  /** What processing a model adds. */
  function NewRecords(m: Model, processed: set<string>, first: int, chunk: Chunker, size: nat): seq<Record>
    requires size > 0
  {
    if IsProcessed(m, processed, chunk, size) then RecordsOf(m, chunk, size, first) else []
  }

  function NewIds(m: Model, processed: set<string>, chunk: Chunker, size: nat): seq<string>
    requires size > 0
  {
    if IsProcessed(m, processed, chunk, size) then [m.id] else []
  }

  // ----- A whole run -----

  datatype Progress = Progress(records: seq<Record>, processed: set<string>, next: int)

  function Advanced(before: Progress, m: Model, chunk: Chunker, size: nat): Progress
    requires size > 0
  {
    var records := NewRecords(m, before.processed, before.next, chunk, size);
    Progress(before.records + records, before.processed + Elements(NewIds(m, before.processed, chunk, size)),
             before.next + |records|)
  }

  function RunModels(models: seq<Model>, processed: set<string>, first: int, chunk: Chunker, size: nat): Progress
    requires size > 0
  {
    if models == [] then Progress([], processed, first)
    else
      var n := |models| - 1;
      Advanced(RunModels(models[..n], processed, first, chunk, size), models[n], chunk, size)
  }

  function Elements(ids: seq<string>): set<string> { set id | id in ids }

  lemma PrefixNext<T>(s: seq<T>, i: nat)
    requires i < |s|
    ensures s[..i + 1] == s[..i] + [s[i]]
  {
  }

  lemma RunNext(models: seq<Model>, i: nat, processed: set<string>, first: int, chunk: Chunker, size: nat,
                before: Progress, after: Progress)
    requires size > 0 && i < |models|
    requires before == RunModels(models[..i], processed, first, chunk, size)
    requires after == RunModels(models[..i + 1], processed, first, chunk, size)
    ensures after == Advanced(before, models[i], chunk, size)
  {
    PrefixNext(models, i);
    RunLast(models[..i], models[i], models[..i + 1], processed, first, chunk, size);
  }

  lemma RunLast(init: seq<Model>, m: Model, models: seq<Model>, processed: set<string>, first: int, chunk: Chunker, size: nat)
    requires size > 0 && models == init + [m]
    ensures var before := RunModels(init, processed, first, chunk, size);
      RunModels(models, processed, first, chunk, size) == Advanced(before, m, chunk, size)
  {
    assert models[..|models| - 1] == init;
  }

  lemma Associative<T>(a: seq<T>, b: seq<T>, c: seq<T>)
    ensures a + (b + c) == (a + b) + c
  {
  }

  /** The first id after those already stored. */
  function StartId(existing: seq<int>): int {
    if existing == [] then 0 else Greatest(existing) + 1
  }

  function Greatest(ids: seq<int>): int {
    if ids == [] then 0
    else
      var n := |ids| - 1;
      if ids[n] > Greatest(ids[..n]) then ids[n] else Greatest(ids[..n])
  }

  class HFModelVectorizer {
    const writer: ParquetWriter<Record>
    const batchSize: nat
    var processed: set<string>
    var processedFile: seq<string>

    ghost predicate Valid()
      reads this, writer
    {
      batchSize > 0 && writer.Valid() && |writer.buffer| < FLUSH_THRESHOLD
    }

    constructor (writer: ParquetWriter<Record>, batchSize: nat, done: seq<string>)
      requires batchSize > 0 && writer.Valid() && |writer.buffer| < FLUSH_THRESHOLD
      ensures Valid() && this.writer == writer && this.batchSize == batchSize
      ensures processed == Elements(done) && processedFile == done
    {
      this.writer, this.batchSize := writer, batchSize;
      processed, processedFile := Elements(done), done;
    }

    method EmbedBatches(m: Model, n: nat) returns (embedded: seq<nat>)
      requires Valid()
      ensures embedded == Embedded(n, batchSize, m.batchOk, BatchCount(n, batchSize))
    {
      embedded := [];
      var lo, b := 0, 0;
      while lo < n
        invariant lo == BatchStart(batchSize, b)
        invariant b <= BatchCount(n, batchSize)
        invariant embedded == Embedded(n, batchSize, m.batchOk, b)
        decreases BatchCount(n, batchSize) - b
      {
        var hi := if lo + batchSize < n then lo + batchSize else n;
        if b == BatchCount(n, batchSize) {
          assert false;
        }
        if m.batchOk(b) {
          embedded := embedded + Range(lo, hi);
        }
        lo, b := lo + batchSize, b + 1;
      }
      BatchStartGrows(batchSize, b, BatchCount(n, batchSize));
    }

    method ProcessModel(m: Model, pointId: int, chunk: Chunker) returns (next: int)
      requires Valid()
      modifies this, writer
      ensures Valid()
      ensures writer.Contents() == old(writer.Contents()) + NewRecords(m, old(processed), pointId, chunk, batchSize)
      ensures next == pointId + |NewRecords(m, old(processed), pointId, chunk, batchSize)|
      ensures processed == old(processed) + Elements(NewIds(m, old(processed), chunk, batchSize))
      ensures processedFile == old(processedFile) + NewIds(m, old(processed), chunk, batchSize)
      ensures IsProcessed(m, old(processed), chunk, batchSize) ==> writer.buffer == []
    {
      var records := ModelRecords(m, pointId, chunk);
      if records == None {
        return pointId;
      }
      Store(m, records.value);
      next := pointId + |records.value|;
    }

    /** The records of a model, or None where it is skipped. */
    method ModelRecords(m: Model, pointId: int, chunk: Chunker) returns (records: Option<seq<Record>>)
      requires Valid()
      ensures records == if IsProcessed(m, processed, chunk, batchSize) then Some(RecordsOf(m, chunk, batchSize, pointId)) else None
    {
      if m.id in processed || m.downloads == None || m.downloads.value < MIN_DOWNLOADS || m.readme == None {
        return None;
      }
      var sections := ParseReadme(m.readme.value);
      if sections == [] {
        return None;
      }
      var chunks := PrepareChunks(sections, chunk);
      var embedded := EmbedBatches(m, |chunks|);
      if embedded == [] {
        return None;
      }
      EmbeddedInRange(|chunks|, batchSize, m.batchOk, BatchCount(|chunks|, batchSize));
      var built := BuildRecords(m, chunks, embedded, |sections|, pointId);
      AreRecords(m, chunk, batchSize, pointId, built);
      records := Some(built);
    }

    /** Records first, then the note that the model is done. */
    method Store(m: Model, records: seq<Record>)
      requires Valid()
      modifies this, writer
      ensures Valid() && writer.buffer == []
      ensures writer.Contents() == old(writer.Contents()) + records
      ensures processed == old(processed) + {m.id} && processedFile == old(processedFile) + [m.id]
    {
      writer.Add(records);
      writer.Flush();
      processed := processed + {m.id};
      processedFile := processedFile + [m.id];
    }

    method ProcessAll(models: seq<Model>, first: int, chunk: Chunker)
      requires Valid()
      modifies this, writer
      ensures Valid()
      ensures writer.Contents() == old(writer.Contents()) + RunModels(models, old(processed), first, chunk, batchSize).records
      ensures processed == RunModels(models, old(processed), first, chunk, batchSize).processed
    {
      var pointId := first;
      ghost var before, known := writer.Contents(), processed;
      ghost var done := Progress([], known, first);
      for i := 0 to |models|
        invariant Valid()
        invariant done == RunModels(models[..i], known, first, chunk, batchSize)
        invariant writer.Contents() == before + done.records
        invariant processed == done.processed && pointId == done.next
      {
        ghost var next := RunModels(models[..i + 1], known, first, chunk, batchSize);
        ghost var records := NewRecords(models[i], done.processed, done.next, chunk, batchSize);
        RunNext(models, i, known, first, chunk, batchSize, done, next);
        Associative(before, done.records, records);
        pointId := ProcessModel(models[i], pointId, chunk);
        done := next;
      }
      assert models[..|models|] == models;
    }

    method Run(models: seq<Model>, existing: seq<int>, chunk: Chunker)
      requires Valid()
      modifies this, writer
      ensures Valid() && writer.buffer == [] && !writer.isOpen
      ensures var progress := RunModels(models, old(processed), StartId(existing), chunk, batchSize);
        writer.file == old(writer.Contents()) + progress.records && processed == progress.processed
    {
      ProcessAll(models, StartId(existing), chunk);
      writer.Flush();
      writer.Close();
    }
  }

  lemma {:induction false} BatchStartGrows(size: nat, b: nat, c: nat)
    requires size > 0 && b <= c
    ensures BatchStart(size, b) <= BatchStart(size, c)
    ensures b < c ==> BatchStart(size, b) <= BatchStart(size, c - 1)
    decreases c
  {
    if b < c {
      BatchStartGrows(size, b, c - 1);
    }
  }

  // ----- What a run stores -----

  lemma {:induction false} RunInvariant(models: seq<Model>, processed: set<string>, first: int, chunk: Chunker, size: nat)
    requires size > 0
    ensures var p := RunModels(models, processed, first, chunk, size);
      && p.next == first + |p.records|
      && (forall i :: 0 <= i < |p.records| ==> p.records[i].id == first + i && p.records[i].modelId in p.processed)
      && processed <= p.processed
  {
    if models != [] {
      RunInvariant(models[..|models| - 1], processed, first, chunk, size);
    }
  }

  lemma {:induction false} GreatestBounds(ids: seq<int>)
    ensures forall i :: 0 <= i < |ids| ==> ids[i] <= Greatest(ids)
    ensures Greatest(ids) >= 0
  {
    if ids != [] {
      GreatestBounds(ids[..|ids| - 1]);
    }
  }

  /** New ids form one contiguous range that starts above every stored id. */
  lemma IdsContiguous(models: seq<Model>, processed: set<string>, existing: seq<int>, chunk: Chunker, size: nat)
    requires size > 0
    ensures var records := RunModels(models, processed, StartId(existing), chunk, size).records;
      && (forall i :: 0 <= i < |records| ==> records[i].id == StartId(existing) + i)
      && forall k :: 0 <= k < |existing| ==> existing[k] < StartId(existing)
  {
    RunInvariant(models, processed, StartId(existing), chunk, size);
    GreatestBounds(existing);
  }

  /** Nothing of another model stands between two records of one model. */
  ghost predicate OwnsBlocks(records: seq<Record>) {
    forall i, j, k :: 0 <= i < j < k < |records| && records[i].modelId == records[k].modelId
      ==> records[j].modelId == records[i].modelId
  }

  lemma BlockAppended(before: seq<Record>, block: seq<Record>, id: string)
    requires OwnsBlocks(before)
    requires forall i :: 0 <= i < |before| ==> before[i].modelId != id
    requires forall i :: 0 <= i < |block| ==> block[i].modelId == id
    ensures OwnsBlocks(before + block)
  {
  }

  /** Each model owns one contiguous block of records, however often it is listed. */
  lemma {:induction false} ModelsOwnBlocks(models: seq<Model>, processed: set<string>, first: int, chunk: Chunker, size: nat)
    requires size > 0
    ensures OwnsBlocks(RunModels(models, processed, first, chunk, size).records)
  {
    if models != [] {
      var n := |models| - 1;
      ModelsOwnBlocks(models[..n], processed, first, chunk, size);
      RunInvariant(models[..n], processed, first, chunk, size);
      var before := RunModels(models[..n], processed, first, chunk, size);
      if models[n].id !in before.processed {
        BlockAppended(before.records, NewRecords(models[n], before.processed, before.next, chunk, size), models[n].id);
      }
    }
  }

  /** Every record pairs its text with the embedding of that same text. */
  ghost predicate Paired(records: seq<Record>) {
    forall i :: 0 <= i < |records| ==> records[i].vector.text == records[i].text
  }

  ghost predicate ModelAligned(m: Model, chunk: Chunker, size: nat)
    requires size > 0
  {
    OnlyLastBatchesFail(m.batchOk, BatchCount(|ModelChunks(m, chunk)|, size))
  }

  lemma RecordsPaired(m: Model, chunk: Chunker, size: nat, first: int)
    requires size > 0 && ModelAligned(m, chunk, size)
    ensures Paired(RecordsOf(m, chunk, size, first))
  {
    var chunks := ModelChunks(m, chunk);
    AlignedIffLastFail(|chunks|, size, m.batchOk, BatchCount(|chunks|, size));
  }

  lemma PairedConcat(a: seq<Record>, b: seq<Record>)
    requires Paired(a) && Paired(b)
    ensures Paired(a + b)
  {
  }

  /** Unless some model has a batch that succeeds after one that failed, the run pairs
      every text with its own embedding. */
  lemma {:induction false} RunPaired(models: seq<Model>, processed: set<string>, first: int, chunk: Chunker, size: nat)
    requires size > 0 && forall i :: 0 <= i < |models| ==> ModelAligned(models[i], chunk, size)
    ensures Paired(RunModels(models, processed, first, chunk, size).records)
  {
    if models != [] {
      var n := |models| - 1;
      var before := RunModels(models[..n], processed, first, chunk, size);
      RunPaired(models[..n], processed, first, chunk, size);
      RecordsPaired(models[n], chunk, size, before.next);
      PairedConcat(before.records, RecordsOf(models[n], chunk, size, before.next));
    }
  }

  // ----- A run that goes wrong -----

  lemma {:induction false} FirstEmbedded(n: nat, ok: nat -> bool, b: nat)
    requires 2 <= b <= n && !ok(0) && ok(1)
    ensures |Embedded(n, 1, ok, b)| > 0 && Embedded(n, 1, ok, b)[0] == 1
  {
    assert BatchStart(1, 1) == 1 && BatchStart(1, 2) == 2;
    if b == 2 {
      assert Embedded(n, 1, ok, 1) == Embedded(n, 1, ok, 0) == [];
    } else {
      FirstEmbedded(n, ok, b - 1);
    }
  }

  lemma {:induction false} BatchesOfOne(b: nat)
    ensures BatchStart(1, b) == b
  {
    if b > 0 {
      BatchesOfOne(b - 1);
    }
  }

  /** With batches of one text, of which the first fails, the first record of a model pairs
      its first text with the embedding of its second. */
  lemma FailedBatchMispairs(m: Model, chunk: Chunker, first: int)
    requires |ModelChunks(m, chunk)| >= 2 && !m.batchOk(0) && m.batchOk(1)
    ensures var chunks, records := ModelChunks(m, chunk), RecordsOf(m, chunk, 1, first);
      |records| > 0 && records[0].text == chunks[0].text && records[0].vector.text == chunks[1].text
  {
    var n := |ModelChunks(m, chunk)|;
    var b := BatchCount(n, 1);
    BatchesOfOne(b);
    BatchesOfOne(b - 1);
    FirstEmbedded(n, m.batchOk, b);
  }
}
