/**
 * Ingestion into the vector index, shared by the `/ask` handler and the
 * preprocessing script: for each file id in order, fetch its text, chunk it,
 * and for each chunk in order embed it and upsert one vector under an id
 * derived from the file id and the chunk position. The first failing step
 * ends the whole run; what was upserted before it stays in the index.
 *
 * The two writers differ only in the id they derive and the metadata they
 * attach; `Scheme` names which one runs, `Writer` is its rule as values.
 */
module Ingestion {
  import opened Wrappers
  import opened Strings
  import opened Chunker
  import opened VectorIndex

  /** `Handler`: the `/ask` handler's writes; `Preprocess`: the preprocessing script's. */
  datatype Scheme = Handler | Preprocess

  /** The id of chunk `i` (counted from 0) of file `fileId`. */
  function VectorId(scheme: Scheme, fileId: string, i: nat): (id: string)
  {
    match scheme
    case Handler => fileId + "-" + Decimal(i + 1)
    case Preprocess => fileId + "_chunk_" + Decimal(i)
  }

  /** The metadata stored with a chunk: the server adds the file id, the script does not. */
  function MetadataFor(scheme: Scheme, fileId: string, chunk: string): (meta: Metadata)
  {
    match scheme
    case Handler => Metadata(chunk, Some(fileId))
    case Preprocess => Metadata(chunk, None)
  }

  /**
   * How a writer names and labels vectors: `id(fileId, i)` is the id of chunk
   * `i` of the file, `meta(fileId, chunk)` the metadata stored with it.
   */
  datatype Writer = Writer(id: (string, nat) -> string, meta: (string, string) -> Metadata)

  /** The rule of writer `scheme`. */
  function WriterFor(scheme: Scheme): (w: Writer)
    ensures forall f, i: nat :: w.id(f, i) == VectorId(scheme, f, i)
    ensures forall f, c :: w.meta(f, c) == MetadataFor(scheme, f, c)
  {
    Writer((f: string, i: nat) => VectorId(scheme, f, i), (f: string, c: string) => MetadataFor(scheme, f, c))
  }

  /** Distinct (file, position) pairs get distinct ids. */
  ghost predicate Injective(w: Writer) {
    forall f1, i1: nat, f2, i2: nat | w.id(f1, i1) == w.id(f2, i2) :: f1 == f2 && i1 == i2
  }

  /**
   * The outside services ingestion calls, each of which may fail:
   * `fetch` downloads the exported text of a file (None: the download or the
   * read failed), `embed` asks for a chunk's embedding (None: the call threw),
   * `accepts` says whether the index accepted the upsert of a given id.
   */
  datatype Providers = Providers(
    fetch: string -> Option<string>,
    embed: string -> Option<Embedding>,
    accepts: string -> bool)

  /** The vectors upserted for one file and whether every chunk made it. */
  datatype DocRun = DocRun(writes: seq<Vector>, ok: bool)

  /** The chunk loop for one file, from chunk `i` on. */
  function DocUpserts(w: Writer, fileId: string, chunks: seq<string>, i: nat, p: Providers): (d: DocRun)
    requires i <= |chunks|
    decreases |chunks| - i
  {
    if i == |chunks| then DocRun([], true)
    else match p.embed(chunks[i])
      case None => DocRun([], false)
      case Some(e) =>
        var v := Vector(w.id(fileId, i), Record(e, w.meta(fileId, chunks[i])));
        if !p.accepts(v.id) then DocRun([], false)
        else
          var rest := DocUpserts(w, fileId, chunks, i + 1, p);
          DocRun([v] + rest.writes, rest.ok)
  }

  /**
   * A run over some files: the vectors upserted in order, the chunks of the
   * files that were finished (the handler's `allChunks`), and whether no step
   * failed.
   */
  datatype Run = Run(writes: seq<Vector>, chunks: seq<string>, ok: bool)

  /** The chunks of a file whose text could be fetched. */
  function DocChunks(p: Providers, fileId: string): seq<string> {
    match p.fetch(fileId)
    case None => []
    case Some(text) => Chunks(text, MaxWords)
  }

  /** One file: fetch its text, chunk it with the default window, run the chunk loop. */
  function IngestDoc(w: Writer, fileId: string, p: Providers): (r: Run)
  {
    match p.fetch(fileId)
    case None => Run([], [], false)
    case Some(_) =>
      var chunks := DocChunks(p, fileId);
      var d := DocUpserts(w, fileId, chunks, 0, p);
      Run(d.writes, if d.ok then chunks else [], d.ok)
  }

  /** The file loop, for any per-file step: files in order, stopping at the first failure. */
  function RunFiles(step: string -> Run, fileIds: seq<string>): (r: Run)
    decreases |fileIds|
  {
    if fileIds == [] then Run([], [], true)
    else
      var first := step(fileIds[0]);
      if !first.ok then first
      else
        var rest := RunFiles(step, fileIds[1..]);
        Run(first.writes + rest.writes, first.chunks + rest.chunks, rest.ok)
  }

  function Step(w: Writer, p: Providers): string -> Run {
    fileId => IngestDoc(w, fileId, p)
  }

  /** The whole ingestion of `fileIds` by one writer. */
  function IngestDocs(scheme: Scheme, fileIds: seq<string>, p: Providers): (r: Run)
  {
    RunFiles(Step(WriterFor(scheme), p), fileIds)
  }

  /**
   * One step of the upsert loop from chunk `i`, when the vectors upserted so
   * far are `done`: a failure ends the document with `done`, a success extends
   * `done` by the chunk's vector.
   */
  lemma DocUpsertsStep(w: Writer, fileId: string, chunks: seq<string>, i: nat, p: Providers, done: seq<Vector>)
    requires i < |chunks|
    ensures var full, d, e := done + DocUpserts(w, fileId, chunks, i, p).writes, DocUpserts(w, fileId, chunks, i, p), p.embed(chunks[i]);
      if e.Some? && p.accepts(w.id(fileId, i)) then
        var v := Vector(w.id(fileId, i), Record(e.value, w.meta(fileId, chunks[i])));
        var rest := DocUpserts(w, fileId, chunks, i + 1, p);
        full == (done + [v]) + rest.writes && d.ok == rest.ok
      else full == done && !d.ok
  {
    var e := p.embed(chunks[i]);
    if e.Some? && p.accepts(w.id(fileId, i)) {
      var v := Vector(w.id(fileId, i), Record(e.value, w.meta(fileId, chunks[i])));
      var rest := DocUpserts(w, fileId, chunks, i + 1, p).writes;
      assert done + ([v] + rest) == (done + [v]) + rest;
    } else {
      assert done + [] == done;
    }
  }

  /**
   * The inner loop of both writers: for each chunk in order, embed it, then
   * upsert `{id, values, metadata}` as the writer names it; stop at the first
   * failure.
   */
  method UpsertChunks(index: Index, w: Writer, fileId: string, chunks: seq<string>, p: Providers)
    returns (ok: bool)
    modifies index
    ensures ok == DocUpserts(w, fileId, chunks, 0, p).ok
    ensures index.records == Apply(old(index.records), DocUpserts(w, fileId, chunks, 0, p).writes)
  {
    ghost var m0 := index.records;
    ghost var full := DocUpserts(w, fileId, chunks, 0, p);
    ghost var done: seq<Vector> := [];
    var i := 0;
    while i < |chunks|
      invariant 0 <= i <= |chunks|
      invariant full.writes == done + DocUpserts(w, fileId, chunks, i, p).writes
      invariant full.ok == DocUpserts(w, fileId, chunks, i, p).ok
      invariant index.records == Apply(m0, done)
    {
      DocUpsertsStep(w, fileId, chunks, i, p, done);
      var embedding := p.embed(chunks[i]);
      if embedding.None? {
        return false;
      }
      var v := Vector(w.id(fileId, i), Record(embedding.value, w.meta(fileId, chunks[i])));
      if !p.accepts(v.id) {
        return false;
      }
      index.Upsert(v);
      ApplySnoc(m0, done, v);
      done := done + [v];
      i := i + 1;
    }
    assert done + [] == done;
    return true;
  }

  // ----- ids -----

  lemma SepDigits(scheme: Scheme, fileId: string, i: nat)
    ensures var pre := if scheme == Handler then fileId + "-" else fileId + "_chunk_";
      |pre| >= 1 && !IsDigit(pre[|pre| - 1]) &&
      VectorId(scheme, fileId, i) == pre + Decimal(if scheme == Handler then i + 1 else i)
  {
  }

  /**
   * An id reads back as its file id, the scheme's separator and a decimal
   * numeral of the chunk's position: counted from 1 by the handler, from 0 by
   * the script.
   */
  lemma VectorIdDecode(scheme: Scheme, fileId: string, i: nat)
    ensures scheme == Handler ==>
      var id, n := VectorId(scheme, fileId, i), |fileId|;
      |id| > n + 1 && id[..n] == fileId && id[n] == '-' &&
      AllDigits(id[n + 1..]) && ParseDecimal(id[n + 1..]) == i + 1
    ensures scheme == Preprocess ==>
      var id, n := VectorId(scheme, fileId, i), |fileId|;
      |id| > n + 7 && id[..n] == fileId && id[n..n + 7] == "_chunk_" &&
      AllDigits(id[n + 7..]) && ParseDecimal(id[n + 7..]) == i
  {
    if scheme == Handler {
      DecimalRoundTrip(i + 1);
      SliceConcat3(fileId, "-", Decimal(i + 1));
    } else {
      DecimalRoundTrip(i);
      SliceConcat3(fileId, "_chunk_", Decimal(i));
    }
  }

  lemma SliceConcat3<T>(a: seq<T>, b: seq<T>, c: seq<T>)
    ensures var s := a + b + c;
      s[..|a|] == a && s[|a|..|a| + |b|] == b && s[|a| + |b|..] == c
  {
  }

  /** Distinct (file, position) pairs get distinct ids under either scheme. */
  lemma VectorIdInjective(scheme: Scheme, f1: string, i1: nat, f2: string, i2: nat)
    ensures VectorId(scheme, f1, i1) == VectorId(scheme, f2, i2) ==> f1 == f2 && i1 == i2
  {
    SepDigits(scheme, f1, i1);
    SepDigits(scheme, f2, i2);
    var n1 := if scheme == Handler then i1 + 1 else i1;
    var n2 := if scheme == Handler then i2 + 1 else i2;
    var pre1 := if scheme == Handler then f1 + "-" else f1 + "_chunk_";
    var pre2 := if scheme == Handler then f2 + "-" else f2 + "_chunk_";
    TrailingDigits(pre1, Decimal(n1), pre2, Decimal(n2));
    DecimalInjective(n1, n2);
    if pre1 == pre2 {
      assert f1 == pre1[..|f1|];
      assert f2 == pre2[..|f2|];
    }
  }

  lemma WriterInjective(scheme: Scheme)
    ensures Injective(WriterFor(scheme))
  {
    var w := WriterFor(scheme);
    forall f1, i1: nat, f2, i2: nat | w.id(f1, i1) == w.id(f2, i2) ensures f1 == f2 && i1 == i2 {
      VectorIdInjective(scheme, f1, i1, f2, i2);
    }
  }

  /**
   * No id the server writes equals an id the script writes: the character in
   * front of the trailing digits is `-` in one and `_` in the other.
   */
  lemma SchemesDisjoint(f1: string, i1: nat, f2: string, i2: nat)
    ensures VectorId(Handler, f1, i1) != VectorId(Preprocess, f2, i2)
  {
    SepDigits(Handler, f1, i1);
    SepDigits(Preprocess, f2, i2);
    TrailingDigits(f1 + "-", Decimal(i1 + 1), f2 + "_chunk_", Decimal(i2));
  }

  // ----- the chunk loop -----

  /**
   * The chunk loop upserts chunk `i + t` as its `t`-th write, under the id and
   * with the metadata the writer gives that chunk, and with that chunk's
   * embedding; it writes every chunk when it succeeds, and when it fails it
   * stopped exactly at the chunk whose embedding or upsert failed, skipping
   * all later ones.
   */
  lemma {:induction false} DocUpsertsShape(w: Writer, fileId: string, chunks: seq<string>, i: nat, p: Providers)
    requires i <= |chunks|
    ensures var d := DocUpserts(w, fileId, chunks, i, p);
      |d.writes| <= |chunks| - i &&
      (d.ok <==> |d.writes| == |chunks| - i)
    ensures var d := DocUpserts(w, fileId, chunks, i, p);
      forall t | 0 <= t < |d.writes| ::
        d.writes[t].id == w.id(fileId, i + t) &&
        d.writes[t].record.metadata == w.meta(fileId, chunks[i + t]) &&
        p.embed(chunks[i + t]) == Some(d.writes[t].record.values)
    ensures var d := DocUpserts(w, fileId, chunks, i, p);
      !d.ok ==>
        var j := i + |d.writes|;
        p.embed(chunks[j]).None? || !p.accepts(w.id(fileId, j))
    decreases |chunks| - i
  {
    if i < |chunks| && p.embed(chunks[i]).Some? && p.accepts(w.id(fileId, i)) {
      DocUpsertsShape(w, fileId, chunks, i + 1, p);
      var d := DocUpserts(w, fileId, chunks, i, p);
      var rest := DocUpserts(w, fileId, chunks, i + 1, p);
      assert d.writes == [d.writes[0]] + rest.writes;
      forall t | 1 <= t < |d.writes|
        ensures d.writes[t] == rest.writes[t - 1]
      {
      }
    }
  }

  /**
   * Every vector of `r` belongs to file `fileId`: the `t`-th one is stored under
   * the writer's id for position `t`, with the writer's metadata for its text.
   */
  ghost predicate Owns(w: Writer, fileId: string, r: Run) {
    forall t | 0 <= t < |r.writes| ::
      r.writes[t].id == w.id(fileId, t) &&
      r.writes[t].record.metadata == w.meta(fileId, r.writes[t].record.metadata.text)
  }

  /**
   * One file's step writes its `t`-th chunk as its `t`-th vector, under the
   * writer's id for `t`, with that chunk's metadata and embedding; when it
   * succeeds it wrote every chunk of the file and reports them all.
   */
  lemma DocRunShape(w: Writer, fileId: string, p: Providers)
    requires forall f, c :: w.meta(f, c).text == c
    ensures Owns(w, fileId, IngestDoc(w, fileId, p))
    ensures var r, chunks := IngestDoc(w, fileId, p), DocChunks(p, fileId);
      |r.writes| <= |chunks| &&
      (r.ok ==> |r.writes| == |chunks| && r.chunks == chunks) &&
      forall t | 0 <= t < |r.writes| ::
        r.writes[t].record.metadata == w.meta(fileId, chunks[t]) &&
        p.embed(chunks[t]) == Some(r.writes[t].record.values)
  {
    if p.fetch(fileId).Some? {
      var chunks := DocChunks(p, fileId);
      var d := DocUpserts(w, fileId, chunks, 0, p);
      var r := IngestDoc(w, fileId, p);
      assert r == Run(d.writes, if d.ok then chunks else [], d.ok);
      DocUpsertsShape(w, fileId, chunks, 0, p);
      forall t | 0 <= t < |r.writes|
        ensures r.writes[t].id == w.id(fileId, t)
        ensures r.writes[t].record.metadata == w.meta(fileId, chunks[t])
        ensures p.embed(chunks[t]) == Some(r.writes[t].record.values)
      {
        assert r.writes[t] == d.writes[0 + t];
      }
      forall t | 0 <= t < |r.writes|
        ensures r.writes[t].record.metadata == w.meta(fileId, r.writes[t].record.metadata.text)
      {
        assert w.meta(fileId, chunks[t]).text == chunks[t];
      }
    }
  }

  lemma WriterMeta(scheme: Scheme)
    ensures forall f, c :: WriterFor(scheme).meta(f, c).text == c
  {
  }

  lemma StepOwned(w: Writer, p: Providers)
    requires forall f, c :: w.meta(f, c).text == c
    ensures forall f :: Owns(w, f, Step(w, p)(f))
  {
    forall f ensures Owns(w, f, Step(w, p)(f)) {
      DocRunShape(w, f, p);
    }
  }

  // ----- the file loop -----

  /**
   * Running over `a + b` is running over `a` and, only if that succeeded, then
   * over `b`: files are handled in order, and after a failure nothing of the
   * later files is fetched, chunked or written.
   */
  lemma {:induction false} RunFilesAppend(step: string -> Run, a: seq<string>, b: seq<string>)
    ensures var ra, rb := RunFiles(step, a), RunFiles(step, b);
      RunFiles(step, a + b) ==
        if !ra.ok then ra else Run(ra.writes + rb.writes, ra.chunks + rb.chunks, rb.ok)
    decreases |a|
  {
    if a == [] {
      assert a + b == b;
    } else {
      var first := step(a[0]);
      assert (a + b)[0] == a[0];
      assert (a + b)[1..] == a[1..] + b;
      if first.ok {
        RunFilesAppend(step, a[1..], b);
        var ra', rb := RunFiles(step, a[1..]), RunFiles(step, b);
        if ra'.ok {
          assert first.writes + (ra'.writes + rb.writes) == (first.writes + ra'.writes) + rb.writes;
          assert first.chunks + (ra'.chunks + rb.chunks) == (first.chunks + ra'.chunks) + rb.chunks;
        }
      }
    }
  }

  /** One file, spelled out for a fetched text. */
  lemma IngestDocFetched(w: Writer, fileId: string, p: Providers, text: string)
    requires p.fetch(fileId) == Some(text)
    ensures var chunks := Chunks(text, MaxWords);
      var d := DocUpserts(w, fileId, chunks, 0, p);
      IngestDoc(w, fileId, p) == Run(d.writes, if d.ok then chunks else [], d.ok)
  {
    var chunks := DocChunks(p, fileId);
    assert chunks == Chunks(text, MaxWords);
    var d := DocUpserts(w, fileId, chunks, 0, p);
    assert IngestDoc(w, fileId, p) == Run(d.writes, if d.ok then chunks else [], d.ok);
  }

  /**
   * One pass of the file loop: after the first `k` files went through, the
   * run over the first `k + 1` adds file `k`'s vectors and chunks; if file `k`
   * fails, the run over all files ends right there.
   */
  lemma RunFilesStep(step: string -> Run, fileIds: seq<string>, k: nat)
    requires k < |fileIds|
    requires RunFiles(step, fileIds[..k]).ok
    ensures var pre, doc := RunFiles(step, fileIds[..k]), step(fileIds[k]);
      RunFiles(step, fileIds[..k + 1]) == Run(pre.writes + doc.writes, pre.chunks + doc.chunks, doc.ok) &&
      (!doc.ok ==> RunFiles(step, fileIds) == RunFiles(step, fileIds[..k + 1]))
  {
    var f := fileIds[k];
    var pre, doc := RunFiles(step, fileIds[..k]), step(f);
    var run := RunFiles(step, fileIds[..k + 1]);
    assert run == Run(pre.writes + doc.writes, pre.chunks + doc.chunks, doc.ok) by {
      assert RunFiles(step, [f]) == doc by {
        assert [f][1..] == [];
        assert doc.writes + [] == doc.writes && doc.chunks + [] == doc.chunks;
      }
      TakeOneMore(fileIds, k);
      RunFilesAppend(step, fileIds[..k], [f]);
    }
    if !doc.ok {
      assert RunFiles(step, fileIds) == run by {
        TakeDrop(fileIds, k + 1);
        RunFilesAppend(step, fileIds[..k + 1], fileIds[k + 1..]);
      }
    }
  }

  lemma TakeOneMore<T>(s: seq<T>, k: nat)
    requires k < |s|
    ensures s[..k + 1] == s[..k] + [s[k]]
  {
  }

  lemma TakeDrop<T>(s: seq<T>, k: nat)
    requires k <= |s|
    ensures s == s[..k] + s[k..]
  {
  }

  /** `RunFilesStep` for the ingestion of one scheme. */
  lemma IngestStep(scheme: Scheme, fileIds: seq<string>, k: nat, p: Providers)
    requires k < |fileIds|
    requires IngestDocs(scheme, fileIds[..k], p).ok
    ensures var pre, doc := IngestDocs(scheme, fileIds[..k], p), IngestDoc(WriterFor(scheme), fileIds[k], p);
      IngestDocs(scheme, fileIds[..k + 1], p) == Run(pre.writes + doc.writes, pre.chunks + doc.chunks, doc.ok) &&
      (!doc.ok ==> IngestDocs(scheme, fileIds, p) == IngestDocs(scheme, fileIds[..k + 1], p))
  {
    RunFilesStep(Step(WriterFor(scheme), p), fileIds, k);
  }

  /**
   * `v` is named and labelled as the chunk at some position of one of the
   * files `fileIds`.
   */
  ghost predicate OwnedBy(w: Writer, fileIds: seq<string>, v: Vector) {
    exists j, i: nat | 0 <= j < |fileIds| ::
      v.id == w.id(fileIds[j], i) &&
      v.record.metadata == w.meta(fileIds[j], v.record.metadata.text)
  }

  ghost predicate AllOwned(w: Writer, fileIds: seq<string>, ws: seq<Vector>) {
    forall k | 0 <= k < |ws| :: OwnedBy(w, fileIds, ws[k])
  }

  /** Every vector of the run belongs to one of its files. */
  lemma {:induction false} RunFilesOwned(step: string -> Run, w: Writer, fileIds: seq<string>)
    requires forall f :: Owns(w, f, step(f))
    ensures AllOwned(w, fileIds, RunFiles(step, fileIds).writes)
    decreases |fileIds|
  {
    if fileIds != [] {
      var first := step(fileIds[0]);
      var ws := RunFiles(step, fileIds).writes;
      assert Owns(w, fileIds[0], first);
      forall k | 0 <= k < |first.writes| ensures OwnedBy(w, fileIds, first.writes[k]) {
        assert first.writes[k].id == w.id(fileIds[0], k);
      }
      if first.ok {
        var tail := fileIds[1..];
        var rest := RunFiles(step, tail).writes;
        RunFilesOwned(step, w, tail);
        assert AllOwned(w, tail, rest);
        assert ws == first.writes + rest;
        forall k | 0 <= k < |rest| ensures OwnedBy(w, fileIds, rest[k]) {
          var v := rest[k];
          assert OwnedBy(w, tail, v);
          var j, i: nat :| 0 <= j < |tail| &&
            v.id == w.id(tail[j], i) &&
            v.record.metadata == w.meta(tail[j], v.record.metadata.text);
          assert tail[j] == fileIds[j + 1];
        }
        forall k | 0 <= k < |ws| ensures OwnedBy(w, fileIds, ws[k]) {
          if k >= |first.writes| { assert ws[k] == rest[k - |first.writes|]; }
        }
      }
    }
  }

  /**
   * Every vector a run writes belongs to one of its files: its id is that
   * file's id for some position, its metadata that file's metadata for its text.
   */
  lemma IngestWritesOwned(scheme: Scheme, fileIds: seq<string>, p: Providers, k: nat)
    requires k < |IngestDocs(scheme, fileIds, p).writes|
    ensures var v := IngestDocs(scheme, fileIds, p).writes[k];
      exists j, i: nat | 0 <= j < |fileIds| ::
        v.id == VectorId(scheme, fileIds[j], i) &&
        v.record.metadata == MetadataFor(scheme, fileIds[j], v.record.metadata.text)
  {
    var w := WriterFor(scheme);
    WriterMeta(scheme);
    StepOwned(w, p);
    RunFilesOwned(Step(w, p), w, fileIds);
    var v := IngestDocs(scheme, fileIds, p).writes[k];
    assert OwnedBy(w, fileIds, v);
    var j, i: nat :| 0 <= j < |fileIds| &&
      v.id == w.id(fileIds[j], i) &&
      v.record.metadata == w.meta(fileIds[j], v.record.metadata.text);
    assert v.id == VectorId(scheme, fileIds[j], i);
  }

  lemma {:induction false} IdsMember(ws: seq<Vector>, id: string)
    requires id in Ids(ws)
    ensures exists k :: 0 <= k < |ws| && ws[k].id == id
  {
    var init := ws[..|ws| - 1];
    if id != ws[|ws| - 1].id {
      IdsMember(init, id);
      var k :| 0 <= k < |init| && init[k].id == id;
      assert ws[k] == init[k];
    }
  }

  /** A run leaves alone every entry whose id is not one of its files' ids. */
  lemma RunFilesFrame(m: map<string, Record>, step: string -> Run, w: Writer, fileIds: seq<string>, id: string)
    requires forall f :: Owns(w, f, step(f))
    requires forall j, i: nat | 0 <= j < |fileIds| :: id != w.id(fileIds[j], i)
    ensures var after := Apply(m, RunFiles(step, fileIds).writes);
      (id in after <==> id in m) && (id in m ==> after[id] == m[id])
  {
    var ws := RunFiles(step, fileIds).writes;
    RunFilesOwned(step, w, fileIds);
    ApplyFrame(m, ws);
    if id in Ids(ws) {
      IdsMember(ws, id);
    }
  }

  /**
   * A run leaves alone every index entry whose id is not the id of some chunk
   * position of one of its files: same presence, same record.
   */
  lemma IngestFrame(m: map<string, Record>, scheme: Scheme, fileIds: seq<string>, p: Providers, id: string)
    requires forall j, i: nat | 0 <= j < |fileIds| :: id != VectorId(scheme, fileIds[j], i)
    ensures var after := Apply(m, IngestDocs(scheme, fileIds, p).writes);
      (id in after <==> id in m) && (id in m ==> after[id] == m[id])
  {
    var w := WriterFor(scheme);
    WriterMeta(scheme);
    StepOwned(w, p);
    RunFilesFrame(m, Step(w, p), w, fileIds, id);
  }

  /** Re-running ingestion with the same services leaves the index exactly as one run did. */
  lemma ReingestIdempotent(m: map<string, Record>, scheme: Scheme, fileIds: seq<string>, p: Providers)
    ensures var ws := IngestDocs(scheme, fileIds, p).writes;
      Apply(Apply(m, ws), ws) == Apply(m, ws)
  {
    ApplyIdempotent(m, IngestDocs(scheme, fileIds, p).writes);
  }

  /**
   * Two successful passes over one file whose text is the same write the same
   * ids with the same metadata, chunk by chunk, whatever the embeddings.
   */
  lemma DocSameShape(w: Writer, fileId: string, p1: Providers, p2: Providers)
    requires forall f, c :: w.meta(f, c).text == c
    requires p1.fetch(fileId) == p2.fetch(fileId)
    requires IngestDoc(w, fileId, p1).ok && IngestDoc(w, fileId, p2).ok
    ensures SameShape(IngestDoc(w, fileId, p1).writes, IngestDoc(w, fileId, p2).writes)
  {
    DocRunShape(w, fileId, p1);
    DocRunShape(w, fileId, p2);
    assert DocChunks(p1, fileId) == DocChunks(p2, fileId);
  }

  /** Two successful runs whose steps agree in shape file by file agree in shape. */
  lemma {:induction false} RunFilesSameShape(step1: string -> Run, step2: string -> Run, fileIds: seq<string>)
    requires forall f :: step1(f).ok && step2(f).ok ==> SameShape(step1(f).writes, step2(f).writes)
    requires RunFiles(step1, fileIds).ok && RunFiles(step2, fileIds).ok
    ensures SameShape(RunFiles(step1, fileIds).writes, RunFiles(step2, fileIds).writes)
    decreases |fileIds|
  {
    if fileIds != [] {
      var f := fileIds[0];
      RunFilesSameShape(step1, step2, fileIds[1..]);
      SameShapeConcat(step1(f).writes, step2(f).writes,
                      RunFiles(step1, fileIds[1..]).writes, RunFiles(step2, fileIds[1..]).writes);
    }
  }

  /**
   * Re-ingesting unchanged documents overwrites rather than duplicates, even
   * when the embedding service answers differently the second time: after a
   * second successful run the index has exactly the ids it had after the
   * first, with the same metadata under each.
   */
  lemma ReingestKeepsLabels(m: map<string, Record>, scheme: Scheme, fileIds: seq<string>, p1: Providers, p2: Providers)
    requires forall f :: p1.fetch(f) == p2.fetch(f)
    requires IngestDocs(scheme, fileIds, p1).ok && IngestDocs(scheme, fileIds, p2).ok
    ensures var once := Apply(m, IngestDocs(scheme, fileIds, p1).writes);
      var twice := Apply(once, IngestDocs(scheme, fileIds, p2).writes);
      twice.Keys == once.Keys &&
      forall id | id in once :: twice[id].metadata == once[id].metadata
  {
    var w := WriterFor(scheme);
    WriterMeta(scheme);
    var s1, s2 := Step(w, p1), Step(w, p2);
    forall f | s1(f).ok && s2(f).ok ensures SameShape(s1(f).writes, s2(f).writes) {
      DocSameShape(w, f, p1, p2);
    }
    var w1, w2 := RunFiles(s1, fileIds).writes, RunFiles(s2, fileIds).writes;
    RunFilesSameShape(s2, s1, fileIds);
    var once := Apply(m, w1);
    ApplyIdempotent(m, w1);
    ApplySameShape(once, once, w2, w1);
  }

  /**
   * After a successful run over distinct files with an injective naming, the
   * `t`-th vector of each file's step is what the index holds under that
   * file's id for `t`.
   */
  lemma {:induction false} RunFilesEntries(m: map<string, Record>, step: string -> Run, w: Writer, fileIds: seq<string>)
    requires Injective(w)
    requires forall f :: Owns(w, f, step(f))
    requires forall a, b | 0 <= a < b < |fileIds| :: fileIds[a] != fileIds[b]
    requires RunFiles(step, fileIds).ok
    ensures forall j | 0 <= j < |fileIds| :: step(fileIds[j]).ok
    ensures var after := Apply(m, RunFiles(step, fileIds).writes);
      forall j, t | 0 <= j < |fileIds| && 0 <= t < |step(fileIds[j]).writes| ::
        w.id(fileIds[j], t) in after &&
        after[w.id(fileIds[j], t)] == step(fileIds[j]).writes[t].record
    decreases |fileIds|
  {
    if fileIds != [] {
      var f := fileIds[0];
      var first := step(f);
      var tail := fileIds[1..];
      var wr := RunFiles(step, tail).writes;
      var m1 := Apply(m, first.writes);
      RunFilesEntries(m1, step, w, tail);
      ApplyConcat(m, first.writes, wr);
      var after := Apply(m1, wr);
      assert after == Apply(m, RunFiles(step, fileIds).writes);
      forall j | 0 <= j < |fileIds| ensures step(fileIds[j]).ok {
        if j > 0 { assert fileIds[j] == tail[j - 1]; }
      }
      forall j, t | 0 <= j < |fileIds| && 0 <= t < |step(fileIds[j]).writes|
        ensures w.id(fileIds[j], t) in after &&
          after[w.id(fileIds[j], t)] == step(fileIds[j]).writes[t].record
      {
        if j == 0 {
          var id := w.id(f, t);
          assert Owns(w, f, first);
          forall t' | t < t' < |first.writes| ensures first.writes[t'].id != first.writes[t].id {
            assert first.writes[t'].id == w.id(f, t');
          }
          ApplyLastWins(m, first.writes, t);
          forall j', i': nat | 0 <= j' < |tail| ensures id != w.id(tail[j'], i') {
            assert tail[j'] == fileIds[j' + 1];
          }
          RunFilesFrame(m1, step, w, tail, id);
        } else {
          assert fileIds[j] == tail[j - 1];
        }
      }
    }
  }

  /**
   * After a run whose first `n` files all went through, and when the file ids
   * are distinct, the index holds chunk `i` of each of those files under
   * `VectorId(file, i)`, with that chunk's metadata and embedding, whether or
   * not a later file failed.
   */
  lemma IngestedEntries(m: map<string, Record>, scheme: Scheme, fileIds: seq<string>, p: Providers, n: nat, j: nat, i: nat)
    requires n <= |fileIds|
    requires forall a, b | 0 <= a < b < |fileIds| :: fileIds[a] != fileIds[b]
    requires IngestDocs(scheme, fileIds[..n], p).ok
    requires j < n && i < |DocChunks(p, fileIds[j])|
    ensures var after := Apply(m, IngestDocs(scheme, fileIds, p).writes);
      var chunk := DocChunks(p, fileIds[j])[i];
      var id := VectorId(scheme, fileIds[j], i);
      id in after &&
      after[id].metadata == MetadataFor(scheme, fileIds[j], chunk) &&
      p.embed(chunk) == Some(after[id].values)
  {
    var w := WriterFor(scheme);
    var step := Step(w, p);
    var a, b := fileIds[..n], fileIds[n..];
    var wa, wb := RunFiles(step, a).writes, RunFiles(step, b).writes;
    var f := fileIds[j];
    var id := w.id(f, i);
    var chunk := DocChunks(p, f)[i];
    assert Apply(m, IngestDocs(scheme, fileIds, p).writes) == Apply(Apply(m, wa), wb) by {
      TakeDrop(fileIds, n);
      RunFilesAppend(step, a, b);
      ApplyConcat(m, wa, wb);
    }
    assert id in Apply(m, wa) && Apply(m, wa)[id].metadata == MetadataFor(scheme, f, chunk) &&
      p.embed(chunk) == Some(Apply(m, wa)[id].values) by {
      assert a[j] == f;
      PrefixEntry(m, scheme, a, p, j, i);
    }
    assert id in Apply(Apply(m, wa), wb) && Apply(Apply(m, wa), wb)[id] == Apply(m, wa)[id] by {
      WriterInjective(scheme);
      StepOwned(w, p);
      forall j', i': nat | 0 <= j' < |b| ensures id != w.id(b[j'], i') {
        assert b[j'] == fileIds[n + j'];
      }
      RunFilesFrame(Apply(m, wa), step, w, b, id);
    }
  }

  /** Chunk `i` of the `j`-th document of a run where every document went through. */
  lemma PrefixEntry(m: map<string, Record>, scheme: Scheme, a: seq<string>, p: Providers, j: nat, i: nat)
    requires forall x, y | 0 <= x < y < |a| :: a[x] != a[y]
    requires IngestDocs(scheme, a, p).ok
    requires j < |a| && i < |DocChunks(p, a[j])|
    ensures var after := Apply(m, IngestDocs(scheme, a, p).writes);
      var chunk, id := DocChunks(p, a[j])[i], VectorId(scheme, a[j], i);
      id in after &&
      after[id].metadata == MetadataFor(scheme, a[j], chunk) &&
      p.embed(chunk) == Some(after[id].values)
  {
    var w := WriterFor(scheme);
    var step := Step(w, p);
    var f := a[j];
    var r := step(f);
    var after := Apply(m, RunFiles(step, a).writes);
    WriterInjective(scheme);
    StepOwned(w, p);
    assert r.ok by {
      RunFilesEntries(m, step, w, a);
    }
    assert r == IngestDoc(w, f, p);
    WriterMeta(scheme);
    DocRunShape(w, f, p);
    assert i < |r.writes|;
    assert w.id(f, i) in after && after[w.id(f, i)] == r.writes[i].record by {
      RunFilesEntries(m, step, w, a);
    }
  }

}
