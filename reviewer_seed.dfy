/**
 * Seeding the `reviewers` collection with the committee's fixed roster,
 * once: the roster is written only into an empty collection.
 */
module ReviewerSeed {
  import opened Wrappers
  import opened ReviewerLookup

  /** The roster: each reviewer's name and access code, in source order. */
  const Roster: seq<(string, string)> := [
    ("Dr. Allan Paulo L. Blaquera", "DRAPL-001"),
    ("Dr. Nova R. Domingo", "DRNRD-002"),
    ("Dr. Claudeth U. Gamiao", "DRCUG-003"),
    ("Dr. Mark Klimson L. Luyun", "DRMKL-004"),
    ("Mr. Wilfredo DJ P. Martin IV", "MRWDM-005"),
    ("Mr. Sergio G. Imperio", "MRSGI-006"),
    ("Dr. Marjorie L. Bambalan", "DRMLB-007"),
    ("Mrs. Elizabeth C. Iquin", "MRSEI-008"),
    ("Dr. Milrose Tangonan", "DRMT-009"),
    ("Engr. Verge C. Baccay", "ENGVCB-010"),
    ("Mr. Everett T. Laureta", "MRET-011"),
    ("Mrs. Maria Felina B. Agbayani", "MRMFBA-012"),
    ("Mrs. Rita B. Daliwag", "MRRBD-013"),
    ("Mrs. Lita Jose", "MRLJ-014"),
    ("Dr. Corazon Dela Cruz", "DRCDC-015"),
    ("Dr. Ester Yu", "DREY-016"),
    ("Mr. Angelo Peralta", "MRAP-017"),
    ("Dr. Janette Fermin", "DRJF-018"),
    ("Mr. Rogelio Fermin", "MRRF-019"),
    ("Mrs. Vivian Sorita", "MRSVS-020"),
    ("Dr. Benjamin Jularbal", "DRBJ-021"),
    ("Mrs. Kristine Joy O. Cortes", "MRSKC-022"),
    ("Mrs. Jean Sumait", "MRSJS-023"),
    ("Dr. Emman Earl Cacayurin", "DREEC-024")
  ]

  /** The 24 roster codes are pairwise distinct and every roster name is non-empty. */
  lemma RosterWellFormed()
    ensures |Roster| == 24
    ensures forall i, j :: 0 <= i < j < |Roster| ==> Roster[i].1 != Roster[j].1
    ensures forall i :: 0 <= i < |Roster| ==> Roster[i].0 != ""
  {
  }

  /**
   * A `reviewers` record as seeding writes it: document id, name, code,
   * creation date and the active flag.
   */
  datatype ReviewerRecord = ReviewerRecord(docId: string, name: string, code: string, createdAt: string, isActive: bool)

  /**
   * The record seeding writes for the i-th roster entry, under the store's
   * i-th generated id, dated by the i-th reading of the clock.
   */
  function SeedRecord(ids: seq<string>, dates: seq<string>, i: nat): ReviewerRecord
    requires |ids| == |Roster| && |dates| == |Roster| && i < |Roster|
  {
    ReviewerRecord(ids[i], Roster[i].0, Roster[i].1, dates[i], true)
  }

  /** The records the batch writes: one per roster entry, in roster order. */
  function SeedRecords(ids: seq<string>, dates: seq<string>, n: nat): (records: seq<ReviewerRecord>)
    requires |ids| == |Roster| && |dates| == |Roster| && n <= |Roster|
    ensures |records| == n
    ensures forall i :: 0 <= i < n ==> records[i] == SeedRecord(ids, dates, i)
  {
    if n == 0 then [] else SeedRecords(ids, dates, n - 1) + [SeedRecord(ids, dates, n - 1)]
  }

  /**
   * The outcome of `initializeReviewersInFirestore` on a collection: the
   * records afterwards and whether it seeded.
   */
  function Seed(records: seq<ReviewerRecord>, ids: seq<string>, dates: seq<string>): (seq<ReviewerRecord>, bool)
    requires |ids| == |Roster| && |dates| == |Roster|
  {
    if records == [] then (SeedRecords(ids, dates, |Roster|), true) else (records, false)
  }

  /**
   * Seeding is idempotent: a second run, whatever ids the store would
   * generate and whenever it runs, finds a non-empty collection, writes
   * nothing and returns false.
   */
  lemma SeedIdempotent(records: seq<ReviewerRecord>, ids: seq<string>, dates: seq<string>,
                       ids2: seq<string>, dates2: seq<string>)
    requires |ids| == |Roster| && |dates| == |Roster| && |ids2| == |Roster| && |dates2| == |Roster|
    ensures Seed(Seed(records, ids, dates).0, ids2, dates2) == (Seed(records, ids, dates).0, false)
  {
    RosterWellFormed();
  }

  /** The records as the code lookups read them. */
  function LookupDocs(records: seq<ReviewerRecord>): (docs: seq<ReviewerDoc>)
    ensures |docs| == |records|
    ensures forall i :: 0 <= i < |records| ==>
              docs[i] == ReviewerDoc(records[i].docId, records[i].name, records[i].code)
  {
    if records == [] then []
    else [ReviewerDoc(records[0].docId, records[0].name, records[0].code)] + LookupDocs(records[1..])
  }

  /**
   * In a freshly seeded collection every roster code resolves, by the
   * first-match lookups, to its own reviewer's name and document id.
   */
  lemma SeededCodesResolve(ids: seq<string>, dates: seq<string>, i: nat)
    requires |ids| == |Roster| && |dates| == |Roster| && i < |Roster|
    ensures var docs := LookupDocs(SeedRecords(ids, dates, |Roster|));
            GetReviewerName(docs, Roster[i].1) == Some(Roster[i].0) &&
            GetReviewerId(docs, Roster[i].1) == Some(ids[i])
  {
    SeededPrefixResolves(ids, dates, |Roster|, i);
  }

  /** `SeededCodesResolve` for the records of the first `n` roster entries. */
  lemma SeededPrefixResolves(ids: seq<string>, dates: seq<string>, n: nat, i: nat)
    requires |ids| == |Roster| && |dates| == |Roster| && i < n <= |Roster|
    ensures var docs := LookupDocs(SeedRecords(ids, dates, n));
            GetReviewerName(docs, Roster[i].1) == Some(Roster[i].0) &&
            GetReviewerId(docs, Roster[i].1) == Some(ids[i])
  {
    RosterWellFormed();
    var records := SeedRecords(ids, dates, n);
    var docs := LookupDocs(records);
    forall j | 0 <= j < |docs| && j != i
      ensures docs[j].code != Roster[i].1
    {
      assert docs[j].code == records[j].code == Roster[j].1;
    }
    assert docs[i] == ReviewerDoc(ids[i], Roster[i].0, Roster[i].1);
    LookupsAgree(docs, Roster[i].1, i);
  }

  /** The `reviewers` collection. */
  class ReviewerCollection {
    var records: seq<ReviewerRecord>

    constructor(records: seq<ReviewerRecord>)
      ensures this.records == records
    {
      this.records := records;
    }

    /**
     * `initializeReviewersInFirestore`. `ids` are the document ids the
     * store generates for the batch and `dates` the readings of `new Date()`
     * for its records, in roster order; `fails` says whether reading the
     * collection or committing the batch rejects, in which case the error
     * is rethrown (nothing) and the collection is unchanged. Otherwise the
     * result is whether it seeded.
     */
    method Initialize(ids: seq<string>, dates: seq<string>, fails: bool) returns (seeded: Option<bool>)
      requires |ids| == |Roster| && |dates| == |Roster|
      modifies this
      ensures fails ==> seeded.None? && records == old(records)
      ensures !fails ==> seeded == Some(Seed(old(records), ids, dates).1) && records == Seed(old(records), ids, dates).0
    {
      if fails {
        return None;
      }
      if |records| == 0 {
        var batch: seq<ReviewerRecord> := [];
        for i := 0 to |Roster|
          invariant batch == SeedRecords(ids, dates, i)
        {
          batch := batch + [ReviewerRecord(ids[i], Roster[i].0, Roster[i].1, dates[i], true)];
        }
        records := batch;
        return Some(true);
      }
      return Some(false);
    }
  }
}
