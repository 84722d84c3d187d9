/**
 * The stored application record shared by the submission page, which
 * creates it, and the reviewer pages, which read its assignment slots.
 */
module Applications {
  import opened Wrappers

  /** One reviewer-assignment slot: `{reviewer_name, form, status}`. */
  datatype Slot = Slot(reviewerName: string, form: string, status: string)

  /** The slot a new application starts with. */
  const EmptySlot := Slot("", "", "Pending")

  /** Metadata kept for one uploaded file. */
  datatype FileMeta = FileMeta(name: string, mimeType: string, size: nat, path: string)

  /**
   * An `applications` document. A slot is `None` when the document has no
   * such field (documents not created by the submission page). The two
   * dates are the store's clock readings for `serverTimestamp()`.
   */
  datatype Application = Application(
    id: string,
    researchTitle: string,
    principalInvestigator: string,
    courseProgram: string,
    adviser: string,
    emailAddress: string,
    files: map<string, FileMeta>,
    status: string,
    reviewer1: Option<Slot>,
    reviewer2: Option<Slot>,
    reviewer3: Option<Slot>,
    submissionDate: string,
    createdAt: string,
    year: nat)

  /** The three slot fields, `reviewer1` .. `reviewer3`, in that order. */
  datatype SlotKey = Reviewer1 | Reviewer2 | Reviewer3

  const SlotOrder: seq<SlotKey> := [Reviewer1, Reviewer2, Reviewer3]

  function SlotOf(app: Application, k: SlotKey): Option<Slot> {
    match k
    case Reviewer1 => app.reviewer1
    case Reviewer2 => app.reviewer2
    case Reviewer3 => app.reviewer3
  }
}
