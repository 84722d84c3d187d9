/**
 * Uploading a list of research-progress rows, parsed from JSON, into a
 * store collection in one batch.
 */
module ResearchUpload {
  import opened Wrappers
  import opened Text

  /**
   * A field value of a parsed row. Numbers are integers here; `JOther`
   * stands for an array or object, which is always truthy.
   */
  datatype Json = JNull | JBool(b: bool) | JNum(n: int) | JStr(s: string) | JOther

  /** A parsed row: its fields by name; a missing field is `undefined`. */
  type Row = map<string, Json>

  /** JavaScript truthiness of a present value. */
  predicate Truthy(v: Json) {
    match v
    case JNull => false
    case JBool(b) => b
    case JNum(n) => n != 0
    case JStr(s) => s != ""
    case JOther => true
  }

  /** The five fields a row is expected to carry. */
  const Fields: seq<string> := ["Main Folder", "Reviewer", "Document", "Folder Link", "Progress"]

  /** `item[key] || ""`: the field when present and truthy, the empty string otherwise. */
  function FieldOrEmpty(item: Row, key: string): (v: Json)
    ensures key in item && Truthy(item[key]) ==> v == item[key]
    ensures !(key in item && Truthy(item[key])) ==> v == JStr("")
  {
    if key in item && Truthy(item[key]) then item[key] else JStr("")
  }

  /** `cleanData`: exactly the five fields, each the row's value or the empty string. */
  function CleanData(item: Row): (r: Row)
    ensures r.Keys == set k | k in Fields
    ensures forall k :: k in r ==> r[k] == JStr("") || Truthy(r[k])
    ensures forall k :: k in r ==> r[k] == FieldOrEmpty(item, k)
  {
    map k | k in Fields :: FieldOrEmpty(item, k)
  }

  /** Cleaning a cleaned row changes nothing. */
  lemma CleanDataIdempotent(item: Row)
    ensures CleanData(CleanData(item)) == CleanData(item)
  {
    var once := CleanData(item);
    forall k | k in Fields
      ensures FieldOrEmpty(once, k) == once[k]
    {
    }
  }

  /** A stored research document: the renamed fields and the two timestamps. */
  datatype ResearchDoc = ResearchDoc(mainFolder: Json, reviewer: Json, document: Json,
                                     link: Json, progress: Json, createdAt: string, updatedAt: string)

  /** The document written for a row at time `now`. */
  function DocOf(item: Row, now: string): (d: ResearchDoc)
    ensures d.mainFolder == FieldOrEmpty(item, "Main Folder") && d.reviewer == FieldOrEmpty(item, "Reviewer")
    ensures d.document == FieldOrEmpty(item, "Document") && d.link == FieldOrEmpty(item, "Folder Link")
    ensures d.progress == FieldOrEmpty(item, "Progress")
    ensures d.createdAt == now && d.updatedAt == now
  {
    var c := CleanData(item);
    ResearchDoc(c["Main Folder"], c["Reviewer"], c["Document"], c["Folder Link"], c["Progress"], now, now)
  }

  /** The id of the row at `index` under a prefix: the prefix, `_` and the 1-based row number. */
  function PrefixedId(prefix: string, index: nat): string {
    prefix + "_" + NatToString(index + 1)
  }

  /** Distinct rows get distinct prefixed ids, each ending in its row number. */
  lemma PrefixedIdsDistinct(prefix: string, i: nat, j: nat)
    ensures PrefixedId(prefix, i)[|prefix| + 1..] == NatToString(i + 1)
    ensures i != j ==> PrefixedId(prefix, i) != PrefixedId(prefix, j)
  {
    var a, b := PrefixedId(prefix, i), PrefixedId(prefix, j);
    assert a[|prefix| + 1..] == NatToString(i + 1);
    assert b[|prefix| + 1..] == NatToString(j + 1);
    if a == b {
      NatToStringInjective(i + 1, j + 1);
    }
  }

  /**
   * The id of the row at `index`: its prefixed row number when the prefix
   * is truthy, otherwise the id the store generates for it (`autoIds`).
   */
  function DocId(prefix: Option<string>, autoIds: seq<string>, index: nat): (id: string)
    requires index < |autoIds|
    ensures prefix.Some? && prefix.value != "" ==> id == PrefixedId(prefix.value, index)
    ensures !(prefix.Some? && prefix.value != "") ==> id == autoIds[index]
  {
    if prefix.Some? && prefix.value != "" then prefix.value + "_" + NatToString(index + 1) else autoIds[index]
  }

  /** The document ids of the batch, one per row. */
  function DocIds(prefix: Option<string>, autoIds: seq<string>): (ids: seq<string>)
    ensures |ids| == |autoIds|
    ensures forall i :: 0 <= i < |autoIds| ==> ids[i] == DocId(prefix, autoIds, i)
  {
    seq(|autoIds|, i requires 0 <= i < |autoIds| => DocId(prefix, autoIds, i))
  }

  /** The writes of the batch in order; a later write to the same id replaces an earlier one. */
  function Batch(ids: seq<string>, docs: seq<ResearchDoc>): map<string, ResearchDoc>
    requires |ids| == |docs|
  {
    if ids == [] then map[]
    else Batch(ids[..|ids| - 1], docs[..|docs| - 1])[ids[|ids| - 1] := docs[|docs| - 1]]
  }

  /** The documents of the rows, in row order. */
  function DocsOf(data: seq<Row>, now: string): (docs: seq<ResearchDoc>)
    ensures |docs| == |data|
    ensures forall k :: 0 <= k < |data| ==> docs[k] == DocOf(data[k], now)
  {
    if data == [] then [] else DocsOf(data[..|data| - 1], now) + [DocOf(data[|data| - 1], now)]
  }

  /** The batch writes exactly the ids of the rows. */
  lemma {:induction false} BatchKeys(ids: seq<string>, docs: seq<ResearchDoc>)
    requires |ids| == |docs|
    ensures forall id :: id in Batch(ids, docs) <==> id in ids
    decreases |ids|
  {
    if ids != [] {
      var n := |ids| - 1;
      BatchKeys(ids[..n], docs[..n]);
      assert ids == ids[..n] + [ids[n]];
    }
  }

  /** Extending the batch by one row is one more write. */
  lemma BatchSnoc(ids: seq<string>, docs: seq<ResearchDoc>, n: nat)
    requires |ids| == |docs| && n < |ids|
    ensures Batch(ids[..n + 1], docs[..n + 1]) == Batch(ids[..n], docs[..n])[ids[n] := docs[n]]
  {
    assert ids[..n + 1][..n] == ids[..n];
    assert docs[..n + 1][..n] == docs[..n];
  }

  /** With distinct ids, every row's document is in the batch under its own id. */
  lemma {:induction false} BatchHoldsEveryRow(ids: seq<string>, docs: seq<ResearchDoc>, i: nat)
    requires |ids| == |docs| && i < |ids|
    requires forall p, q :: 0 <= p < q < |ids| ==> ids[p] != ids[q]
    ensures ids[i] in Batch(ids, docs) && Batch(ids, docs)[ids[i]] == docs[i]
    decreases |ids|
  {
    BatchKeys(ids, docs);
    if i < |ids| - 1 {
      BatchHoldsEveryRow(ids[..|ids| - 1], docs[..|docs| - 1], i);
    }
  }

  /** With distinct ids, the batch writes exactly one document per row. */
  lemma {:induction false} BatchSize(ids: seq<string>, docs: seq<ResearchDoc>)
    requires |ids| == |docs|
    requires forall p, q :: 0 <= p < q < |ids| ==> ids[p] != ids[q]
    ensures |Batch(ids, docs).Keys| == |ids|
    decreases |ids|
  {
    if ids != [] {
      var n := |ids| - 1;
      BatchSize(ids[..n], docs[..n]);
      BatchKeys(ids[..n], docs[..n]);
      assert ids[n] !in ids[..n];
    }
  }

  /**
   * Under a non-empty prefix every row lands in the batch: document
   * `prefix_k` holds the cleaned and renamed k-th row (1-based), and there
   * are as many documents as rows.
   */
  lemma PrefixedUploadOneDocPerRow(prefix: string, data: seq<Row>, now: string, autoIds: seq<string>, i: nat)
    requires prefix != "" && |autoIds| == |data| && i < |data|
    ensures var ids := DocIds(Some(prefix), autoIds);
            var b := Batch(ids, DocsOf(data, now));
            |b.Keys| == |data| && PrefixedId(prefix, i) in b && b[PrefixedId(prefix, i)] == DocOf(data[i], now)
  {
    var ids := DocIds(Some(prefix), autoIds);
    var docs := DocsOf(data, now);
    forall p, q | 0 <= p < q < |ids|
      ensures ids[p] != ids[q]
    {
      PrefixedIdsDistinct(prefix, p, q);
    }
    BatchSize(ids, docs);
    BatchKeys(ids, docs);
    BatchHoldsEveryRow(ids, docs, i);
  }

  /** `error?.message || 'Unknown error'`. */
  function FailureMessage(errorMessage: Option<string>): (m: string)
    ensures m != ""
    ensures errorMessage.Some? && errorMessage.value != "" ==> m == errorMessage.value
  {
    if errorMessage.Some? && errorMessage.value != "" then errorMessage.value else "Unknown error"
  }

  /** The `batch.set` loop: one document per row, under the row's id. */
  method BuildBatch(data: seq<Row>, documentPrefix: Option<string>, autoIds: seq<string>, now: string)
    returns (batch: map<string, ResearchDoc>)
    requires |autoIds| == |data|
    ensures batch == Batch(DocIds(documentPrefix, autoIds), DocsOf(data, now))
  {
    var ids := DocIds(documentPrefix, autoIds);
    ghost var docs := DocsOf(data, now);
    batch := map[];
    for index := 0 to |data|
      invariant batch == Batch(ids[..index], docs[..index])
    {
      var docId := DocId(documentPrefix, autoIds, index);
      batch := batch[docId := DocOf(data[index], now)];
      BatchSnoc(ids, docs, index);
    }
    assert ids[..|data|] == ids && docs[..|data|] == docs;
  }

  /** The store's collections of research documents, by collection name. */
  class ResearchStore {
    var collections: map<string, map<string, ResearchDoc>>

    constructor()
      ensures collections == map[]
    {
      collections := map[];
    }

    /** The documents of a collection; a collection never written to is empty. */
    function Docs(name: string): map<string, ResearchDoc>
      reads this
    {
      if name in collections then collections[name] else map[]
    }

    /**
     * `uploadResearchData`. `autoIds` are the ids the store would generate
     * for rows without a prefix, `now` is the clock, and `failure` is the
     * commit's error (its message, if any) when it rejects. On success the
     * batch is merged into the collection, replacing documents with the
     * same id; on failure nothing is written.
     */
    method UploadResearchData(data: seq<Row>, collectionName: string, documentPrefix: Option<string>,
                              autoIds: seq<string>, now: string, failure: Option<Option<string>>)
      returns (success: bool, message: string)
      requires |autoIds| == |data|
      modifies this
      ensures failure.Some? ==> !success && message == FailureMessage(failure.value) &&
                                collections == old(collections)
      ensures failure.None? ==>
                success && message == "Successfully uploaded data to " + collectionName &&
                collections == old(collections)[collectionName := old(Docs(collectionName)) +
                  Batch(DocIds(documentPrefix, autoIds),
                        DocsOf(data, now))]
    {
      var batch := BuildBatch(data, documentPrefix, autoIds, now);
      if failure.Some? {
        return false, FailureMessage(failure.value);
      }
      collections := collections[collectionName := Docs(collectionName) + batch];
      return true, "Successfully uploaded data to " + collectionName;
    }
  }
}
