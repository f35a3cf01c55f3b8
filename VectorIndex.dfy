/**
 * The vector index as the pipeline sees it: a store from vector id to
 * `(values, metadata)` that `upsert` overwrites key by key. Embeddings are
 * opaque: nothing here looks inside them.
 */
module VectorIndex {
  import opened Wrappers

  /** An embedding vector returned by the embedding service; never inspected. */
  datatype Embedding = Embedding(values: seq<real>)

  /** Record metadata: the chunk text, and the owning document id when the writer sets one. */
  datatype Metadata = Metadata(text: string, docId: Option<string>)

  datatype Record = Record(values: Embedding, metadata: Metadata)

  /** One `{id, values, metadata}` object handed to `upsert`. */
  datatype Vector = Vector(id: string, record: Record)

  function Ids(writes: seq<Vector>): (ids: set<string>)
    ensures forall k | 0 <= k < |writes| :: writes[k].id in ids
  {
    if writes == [] then {} else Ids(writes[..|writes| - 1]) + {writes[|writes| - 1].id}
  }

  /** The index after upserting `writes` one after the other into `m`. */
  function Apply(m: map<string, Record>, writes: seq<Vector>): (r: map<string, Record>)
  {
    if writes == [] then m
    else
      var last := writes[|writes| - 1];
      Apply(m, writes[..|writes| - 1])[last.id := last.record]
  }

  /** `m1` and `m2` hold the same entries at every key outside `keys`. */
  ghost predicate AgreeOutside(m1: map<string, Record>, m2: map<string, Record>, keys: set<string>) {
    forall id | id !in keys :: (id in m1 <==> id in m2) && (id in m1 ==> m1[id] == m2[id])
  }

  /** Upserting touches only the written ids, and every written id is then present. */
  lemma {:induction false} ApplyFrame(m: map<string, Record>, writes: seq<Vector>)
    ensures AgreeOutside(Apply(m, writes), m, Ids(writes))
    ensures Ids(writes) <= Apply(m, writes).Keys
  {
    if writes != [] {
      ApplyFrame(m, writes[..|writes| - 1]);
    }
  }

  /** Two indexes that agree outside `keys` still agree outside `keys` minus the written ids. */
  lemma {:induction false} ApplyAgree(m1: map<string, Record>, m2: map<string, Record>, keys: set<string>, writes: seq<Vector>)
    requires AgreeOutside(m1, m2, keys)
    ensures AgreeOutside(Apply(m1, writes), Apply(m2, writes), keys - Ids(writes))
  {
    if writes != [] {
      ApplyAgree(m1, m2, keys, writes[..|writes| - 1]);
    }
  }

  /** The result depends on the starting index only outside the written ids. */
  lemma ApplyCongruence(m1: map<string, Record>, m2: map<string, Record>, writes: seq<Vector>)
    requires AgreeOutside(m1, m2, Ids(writes))
    ensures Apply(m1, writes) == Apply(m2, writes)
  {
    ApplyAgree(m1, m2, Ids(writes), writes);
    var r1, r2 := Apply(m1, writes), Apply(m2, writes);
    assert AgreeOutside(r1, r2, {});
    assert r1.Keys == r2.Keys;
  }

  /** Upserting the same vectors a second time leaves the index as after the first time. */
  lemma ApplyIdempotent(m: map<string, Record>, writes: seq<Vector>)
    ensures Apply(Apply(m, writes), writes) == Apply(m, writes)
  {
    ApplyFrame(m, writes);
    ApplyCongruence(Apply(m, writes), m, writes);
  }

  /** Upserting one more vector after `writes` sets its id to its record. */
  lemma ApplySnoc(m: map<string, Record>, writes: seq<Vector>, v: Vector)
    ensures Apply(m, writes + [v]) == Apply(m, writes)[v.id := v.record]
  {
    assert (writes + [v])[..|writes|] == writes;
  }

  /** Upserting `a` and then `b` is upserting `a + b`. */
  lemma {:induction false} ApplyConcat(m: map<string, Record>, a: seq<Vector>, b: seq<Vector>)
    ensures Apply(m, a + b) == Apply(Apply(m, a), b)
  {
    if b != [] {
      assert (a + b)[..|a + b| - 1] == a + b[..|b| - 1];
      ApplyConcat(m, a, b[..|b| - 1]);
    } else {
      assert a + b == a;
    }
  }

  /** The last upsert of an id decides its entry. */
  lemma {:induction false} ApplyLastWins(m: map<string, Record>, writes: seq<Vector>, k: nat)
    requires k < |writes|
    requires forall j | k < j < |writes| :: writes[j].id != writes[k].id
    ensures writes[k].id in Apply(m, writes) && Apply(m, writes)[writes[k].id] == writes[k].record
  {
    if k < |writes| - 1 {
      var init := writes[..|writes| - 1];
      assert init[k] == writes[k];
      ApplyLastWins(m, init, k);
    }
  }

  /** Two indexes hold the same ids, with the same metadata under each. */
  predicate SameLabels(m1: map<string, Record>, m2: map<string, Record>) {
    m1.Keys == m2.Keys && forall id | id in m1 :: m1[id].metadata == m2[id].metadata
  }

  /**
   * Two sequences of upserts write the same ids with the same metadata, position
   * by position; only their embeddings may differ.
   */
  predicate SameShape(a: seq<Vector>, b: seq<Vector>) {
    |a| == |b| &&
    forall k | 0 <= k < |a| :: a[k].id == b[k].id && a[k].record.metadata == b[k].record.metadata
  }

  lemma SameShapeConcat(a1: seq<Vector>, b1: seq<Vector>, a2: seq<Vector>, b2: seq<Vector>)
    requires SameShape(a1, b1) && SameShape(a2, b2)
    ensures SameShape(a1 + a2, b1 + b2)
  {
    forall k | |a1| <= k < |a1| + |a2|
      ensures (a1 + a2)[k].id == (b1 + b2)[k].id && (a1 + a2)[k].record.metadata == (b1 + b2)[k].record.metadata
    {
      assert (a1 + a2)[k] == a2[k - |a1|] && (b1 + b2)[k] == b2[k - |a1|];
    }
  }

  /**
   * Upserts of the same shape into indexes with the same labels give indexes
   * with the same labels: whatever the embeddings, the ids and the metadata
   * come out the same.
   */
  lemma {:induction false} ApplySameShape(m1: map<string, Record>, m2: map<string, Record>, a: seq<Vector>, b: seq<Vector>)
    requires SameLabels(m1, m2) && SameShape(a, b)
    ensures SameLabels(Apply(m1, a), Apply(m2, b))
  {
    if a != [] {
      var n := |a| - 1;
      assert SameShape(a[..n], b[..n]) by {
        forall k | 0 <= k < n ensures a[..n][k] == a[k] && b[..n][k] == b[k] { }
      }
      ApplySameShape(m1, m2, a[..n], b[..n]);
    }
  }

  /** The index: a map from vector id to record, updated in place by `upsert`. */
  class Index {
    var records: map<string, Record>

    constructor (initial: map<string, Record>)
      ensures records == initial
    {
      records := initial;
    }

    /** `index.upsert([v])`: insert or overwrite the entry under `v.id`. */
    method Upsert(v: Vector)
      modifies this
      ensures records == old(records)[v.id := v.record]
    {
      records := records[v.id := v.record];
    }
  }
}
