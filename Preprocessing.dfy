/**
 * The preprocessing script: ingest every document of the list into the index
 * with writer `Preprocess` (ids `fileId_chunk_<i>`, metadata `{text}` only),
 * stopping at the first failure, which is logged rather than rethrown.
 */
module Preprocessing {
  import opened Wrappers
  import opened Chunker
  import opened VectorIndex
  import opened Ingestion
  import Server

  /**
   * The script body: for each document in order, download and read its text,
   * chunk it and upsert its chunks. `completed` is false when a step threw and
   * the error was logged; the script ends normally either way.
   */
  method Run(index: Index, fileIds: seq<string>, p: Providers) returns (completed: bool)
    modifies index
    ensures var run := IngestDocs(Preprocess, fileIds, p);
      completed == run.ok && index.records == Apply(old(index.records), run.writes)
  {
    var w := WriterFor(Preprocess);
    ghost var m0 := index.records;
    var k := 0;
    while k < |fileIds|
      invariant 0 <= k <= |fileIds|
      invariant IngestDocs(Preprocess, fileIds[..k], p).ok
      invariant index.records == Apply(m0, IngestDocs(Preprocess, fileIds[..k], p).writes)
    {
      var fileId := fileIds[k];
      ghost var pre := IngestDocs(Preprocess, fileIds[..k], p);
      IngestStep(Preprocess, fileIds, k, p);
      var text := p.fetch(fileId);
      if text.None? {
        assert pre.writes + [] == pre.writes;
        return false;
      }
      IngestDocFetched(w, fileId, p, text.value);
      var chunks := ChunkText(text.value, MaxWords);
      ghost var d := DocUpserts(w, fileId, chunks, 0, p);
      var ok := UpsertChunks(index, w, fileId, chunks, p);
      ApplyConcat(m0, pre.writes, d.writes);
      if !ok {
        return false;
      }
      k := k + 1;
    }
    assert fileIds[..k] == fileIds;
    return true;
  }

  /**
   * No record the script writes carries a `docId`, so none passes the query
   * filter of the `/ask` handler, whatever documents it asks about.
   */
  lemma NoneTaggedForSearch(fileIds: seq<string>, p: Providers, k: nat, asked: seq<string>)
    requires k < |IngestDocs(Preprocess, fileIds, p).writes|
    ensures IngestDocs(Preprocess, fileIds, p).writes[k].record.metadata.docId == None
    ensures !Server.PassesFilter(IngestDocs(Preprocess, fileIds, p).writes[k].record.metadata, asked)
  {
    IngestWritesOwned(Preprocess, fileIds, p, k);
  }

  /**
   * A script run never overwrites a record the `/ask` handler wrote: every
   * entry under a handler id keeps its presence and its record.
   */
  lemma KeepsServerEntries(m: map<string, Record>, fileIds: seq<string>, p: Providers, f: string, i: nat)
    ensures var after, id := Apply(m, IngestDocs(Preprocess, fileIds, p).writes), VectorId(Handler, f, i);
      (id in after <==> id in m) && (id in m ==> after[id] == m[id])
  {
    var id := VectorId(Handler, f, i);
    forall j, i': nat | 0 <= j < |fileIds| ensures id != VectorId(Preprocess, fileIds[j], i') {
      SchemesDisjoint(f, i, fileIds[j], i');
    }
    IngestFrame(m, Preprocess, fileIds, p, id);
  }
}
