# REC System: a verified model of its core logic

The REC System is a Next.js web application for a research ethics committee. Researchers submit
applications on the submission page. Reviewers enter an access code on the reviewer dashboard, see
the papers assigned to them, and fill in one of three review forms: the exemption checklist, the
protocol review and the informed-consent review. Two utilities seed the reviewer roster and bulk-load
research-progress rows into the document store.

This project models that logic in Dafny and proves what each part promises:

- **Submission** (`submission.dfy`):
  - initials;
  - file extensions;
  - the identifier scan and format `SPUP_{year}_{nnnnn}_SR_{initials}`;
  - the `files` metadata map;
  - the new application record;
  - the Pending-only edit gate;
  - the page's `handleSubmit`.
- **Reviewer lookup** (`reviewer_lookup.dfy`): first-match code lookups, the three-slot assignment
  filter and the form-label mapping.
- **Reviewer dashboard** (`reviewer_dashboard.dfy`): the code-entry state machine, and form
  navigation with its first-match search and route switch.
- **Review forms**: the three pages' shared behaviour is in `review_forms.dfy`. Their fixed initial
  states, label keys and prefill mappings are in `exemption_checklist.dfy`, `protocol_review.dfy` and
  `informed_consent.dfy`.
- **JavaScript objects** (`js_objects.dfy`): a heap of mutable objects of class `JsObject`, with the
  in-place dotted-path update. Because the objects are real heap objects, the shallow copy in
  `handleInputChange` aliases nested objects with the previous state and with `INITIAL_FORM_DATA`.
  Every mount of a form page starts from that one `INITIAL_FORM_DATA` object.
  `ReviewForms.NestedEditSurvivesReset` and `ReviewForms.NextMountSeesEdit` show the consequence:
  after a nested edit, the post-submit reset brings the edited value back, and so does the next mount
  of the page.
- **Seeding** (`reviewer_seed.dfy`): the reviewer roster is written only into an empty collection.
- **Bulk upload** (`research_upload.dfy`): row cleaning, document ids, field renaming and the result
  messages.
- **Shared helpers**: `wrappers.dfy` and `text.dfy` hold `Option`, trimming, splitting, padding and
  numerals. `applications.dfy` holds the application record shared by the pages.

The store is modelled as classes whose fields are maps or sequences. A store call that can reject
becomes a boolean parameter saying whether it rejects, and the clock is a parameter.

The submission's uploads are awaited together with `Promise.all` (src/app/user/page.tsx:191), so one
failed upload aborts the submission and no application record is written. Files that the other slots
already uploaded stay in the file store, which is not modelled.

## Model

| member | source | states |
|---|---|---|
| Text.Trim | src/app/user/page.tsx:124 | the result is the input without leading and trailing whitespace, and is exactly the middle slice |
| Text.Split | src/app/user/page.tsx:124 | the pieces contain no separator and join back to the input |
| Text.SplitJoin | src/app/forms/exemption-checklist/page.tsx:149 | splitting a join of separator-free pieces gives the pieces back |
| Text.PaddedValue | src/app/user/page.tsx:154 | padding a numeral with zeros keeps it all digits and keeps its value |
| Submission.GetInitials | src/app/user/page.tsx:123-131 | `XX` when the trimmed name has no space; otherwise the upper-cased first character of the first word and of the last word |
| Submission.GetFileExtension | src/app/user/page.tsx:69-73 | `.doc` iff msword, `.docx` iff the docx type, `.pdf` for everything else |
| Submission.MaxNumber | src/app/user/page.tsx:144-151 | bounds every number the scan matches and is either 0 or one of them |
| Submission.ScanNextSequence | src/app/user/page.tsx:144-154 | the running maximum loop returns one more than the highest matched number |
| Submission.PaddedNumberDigits | src/app/user/page.tsx:154 | the padded number is all digits, at least five long, never truncated, denotes the number, and is exactly five long iff the number is below 100000 |
| Submission.FormatIdAnyWidth | src/app/user/page.tsx:155 | the corrected scan reads back the number from every identifier it formats |
| Submission.FormatIdAsWritten | src/app/user/page.tsx:146-155 | the regex as written reads back the number of a formatted identifier iff the initials are two capitals and the number is below 100000 |
| Submission.GenerateDocumentId | src/app/user/page.tsx:133-160 | the identifier is the format of the year, the next sequence number and the initials |
| Submission.FreshIdNotInSnapshot | src/app/user/page.tsx:144-155 | with the corrected scan the new identifier is none of the snapshot's identifiers |
| Submission.InitialsWithParenthesis | src/app/user/page.tsx:123-131 | the name `Maria Santos (PI)` gets the initials `M(` |
| Submission.AsWrittenRegeneratesId | src/app/user/page.tsx:144-155 | as written, an identifier with other initials or a six-digit number is generated again after it has been stored |
| Submission.UnseenIdRepeats | src/app/user/page.tsx:144-155 | once an identifier the as-written scan cannot read is stored, the next sequence number is the one it already carries |
| Submission.UploadEntries | src/app/user/page.tsx:174 | the nine upload slots in order, with distinct keys |
| Submission.Metadata | src/app/user/page.tsx:180-188 | the metadata copies name, type and size, with path `applications/{id}/{name}` |
| Submission.FilesOfExact | src/app/user/page.tsx:191-197 | the reduce keeps exactly the entries that have a file, each with its metadata, and no other key |
| Submission.FilesDataExact | src/app/user/page.tsx:174-197 | the `files` map holds exactly the slots that have a file |
| Submission.NoUploadsNoFiles | src/app/user/page.tsx:174-197 | with no file chosen the `files` map is empty |
| Submission.FilesData | src/app/user/page.tsx:191-197 | the reduce loop builds the specified `files` map |
| Submission.NewApplicationShape | src/app/user/page.tsx:200-222 | a new record keeps the form's fields, is Pending and editable, has three slots `('', '', 'Pending')`, and both `submissionDate` and `createdAt` are the store's clock at the write |
| Submission.EditGate | src/app/user/page.tsx:653 | editing is enabled iff the status is `Pending` |
| Submission.SubmitNeverOverwrites | src/app/user/page.tsx:170-200 | with the corrected scan a submission never replaces an application of the same year |
| Submission.UserDashboard.constructor | src/app/user/page.tsx:37-54 | the form starts at `INITIAL_FORM_DATA`, with no messages and no modal |
| Submission.UserDashboard.HandleSubmit | src/app/user/page.tsx:162-234 | any rejection sets `Failed to submit application`, clears the success message, and changes nothing else; success stores the new record under the identifier the given scan generates, replacing any record already there, reports success, shows the modal and resets the form |
| Submission.SameNameOverwrites | src/app/user/page.tsx:123-222 | as written, two submissions from an investigator whose identifier the scan cannot read (such as `Maria Santos (PI)`) get the same identifier, and the second application replaces the first in the store |
| ReviewerLookup.FirstWithCode | src/app/utils/fetchReviewerData.ts:27-33 | the first reviewer whose code equals the input; none iff no reviewer has it |
| ReviewerLookup.GetReviewerName | src/app/utils/fetchReviewerData.ts:24-38 | the first match's name when that name is non-empty, otherwise nothing |
| ReviewerLookup.GetReviewerId | src/app/utils/fetchReviewerData.ts:40-54 | the first match's document id; none iff no reviewer has the code |
| ReviewerLookup.LookupsAgree | src/app/utils/fetchReviewerData.ts:27-49 | when the code is unique, both lookups resolve to that reviewer, and a resolved name implies a resolved id |
| ReviewerLookup.FormLabel | src/app/utils/fetchReviewerData.ts:87-89 | each of the three form codes maps to its label, and anything else maps to `''` |
| ReviewerLookup.AssignmentOf | src/app/utils/fetchReviewerData.ts:84-93 | the assignment carries the code as reviewer id, the form's label, and the slot's name, form and status unchanged |
| ReviewerLookup.AssignmentsForKeys | src/app/utils/fetchReviewerData.ts:82-116 | the map holds exactly the slots that hold the name, each with its assignment |
| ReviewerLookup.BuildAssignments | src/app/utils/fetchReviewerData.ts:82-116 | the slot-by-slot loop builds that map |
| ReviewerLookup.PaperAssignments | src/app/utils/fetchReviewerData.ts:75-123 | a paper copies id, investigator and status, and has an assignment iff the application is assigned |
| ReviewerLookup.AssignedPapersSelect | src/app/utils/fetchReviewerData.ts:71-123 | the papers are the assigned applications, each once, in snapshot order |
| ReviewerLookup.AssignedIndicesSelect | src/app/utils/fetchReviewerData.ts:75-80 | the assigned positions are in range, strictly increasing, and exactly those of the applications with a slot holding the name |
| ReviewerLookup.AssignedPapersAt | src/app/utils/fetchReviewerData.ts:71-123 | the j-th paper is the paper of the j-th assigned application |
| ReviewerLookup.AssignedPapersDistinct | src/app/utils/fetchReviewerData.ts:71-123 | with distinct application ids no paper is listed twice |
| ReviewerLookup.AssignedPapersMembership | src/app/utils/fetchReviewerData.ts:75-80 | an application's paper is listed iff one of its slots holds the name |
| ReviewerLookup.AssignedPapersNonEmpty | src/app/utils/fetchReviewerData.ts:82-118 | every listed paper has at least one assignment, all holding the name |
| ReviewerLookup.EmptySlotsUnassigned | src/app/utils/fetchReviewerData.ts:75-80 | a freshly submitted application is nobody's paper |
| ReviewerLookup.FetchReviewerData | src/app/utils/fetchReviewerData.ts:56-131 | empty when the code resolves to no name; otherwise the assigned papers in order |
| ReviewerDashboard.FirstAssignment | src/app/reviewer/page.tsx:75-78 | the first slot holding the name, in slot order; none iff no slot holds it |
| ReviewerDashboard.FormRoute | src/app/reviewer/page.tsx:88-101 | the three form codes map to their `/forms/...` routes, and any other form has no route |
| ReviewerDashboard.FormNavigation | src/app/reviewer/page.tsx:71-105 | stays without a name; reports `No form type found for this reviewer` iff no slot holds the name; navigates iff the first slot holding the name has one of the three form codes, and then to that slot's route; reports `Unknown form type` iff that first slot's form is none of the three |
| ReviewerDashboard.ListedPaperNavigates | src/app/reviewer/page.tsx:75-101 | for a paper the dashboard listed, navigation always finds an assignment |
| ReviewerDashboard.Dashboard.constructor | src/app/reviewer/page.tsx:26-33 | empty code, no reviewer, no papers, no error |
| ReviewerDashboard.Dashboard.HandleSubmit | src/app/reviewer/page.tsx:35-69 | a blank code changes nothing; an unresolved code sets `Invalid reviewer code` and clears papers, name and id; otherwise it stores the trimmed code, name and id, loads the papers, and reports an empty list |
| ReviewerDashboard.Dashboard.HandleFormNavigation | src/app/reviewer/page.tsx:71-105 | sets the reported error or returns the route, and changes nothing else |
| JsObjects.JsObject.constructor | src/app/forms/exemption-checklist/page.tsx:142 | a new object with the given properties |
| JsObjects.Get | src/app/forms/exemption-checklist/page.tsx:150-151 | reading a property: throws on null or undefined, gives undefined for a key the object does not own |
| JsObjects.Walk | src/app/forms/exemption-checklist/page.tsx:149-152 | the cursor walk stays in the heap |
| JsObjects.WalkThrowsOn | src/app/forms/exemption-checklist/page.tsx:149-152 | once a prefix of the path throws, the whole walk throws |
| JsObjects.SetAtPath | src/app/forms/exemption-checklist/page.tsx:141-155 | a single segment sets the field on a fresh copy; a dotted path assigns the last segment in place on the object the walk reaches, and every other object is untouched; a walk that throws changes nothing |
| JsObjects.WalkFromCopy | src/app/forms/exemption-checklist/page.tsx:149-153 | the cursor loop from the shallow copy reaches an object exactly when the walk of the previous state does, and then the same object |
| JsObjects.Materialize | src/app/forms/exemption-checklist/page.tsx:62-107 | builds fresh, closed objects denoting a constant tree |
| JsObjects.DenotesMono | src/app/forms/exemption-checklist/page.tsx:62-107 | a denotation survives adding objects to the heap |
| JsObjects.DenotesChild | src/app/forms/exemption-checklist/page.tsx:149-152 | the object of a node holds each of the node's children under its key |
| JsObjects.DenotesWalk | src/app/forms/exemption-checklist/page.tsx:149-152 | walking the objects follows walking the tree |
| JsObjects.ReadPath | src/app/forms/exemption-checklist/page.tsx:149-152 | the cursor loop computes the walk |
| JsObjects.ChildAt | src/app/forms/protocol-review/page.tsx:138-173 | in a node with distinct keys, key i leads to child i |
| JsObjects.NodeWellFormed | src/app/forms/protocol-review/page.tsx:138-173 | a node with distinct keys and well-formed children is well formed |
| JsObjects.TreeWalkKeys | src/app/forms/protocol-review/page.tsx:240-244 | walks of one, two and three keys are steps from child to child |
| JsObjects.ClosedWith | src/app/forms/exemption-checklist/page.tsx:124-131 | adding an object whose values stay in the heap keeps the heap closed |
| JsObjects.WalkKeys | src/app/forms/protocol-review/page.tsx:240-244 | walks of one, two and three keys are successive property reads |
| FormTrees.Point | src/app/forms/exemption-checklist/page.tsx:70-73 | an assessment point has value `null`, and has comments `''` exactly when it has comments |
| FormTrees.PointDenotes | src/app/forms/exemption-checklist/page.tsx:70-73 | a point object has exactly the keys `value` and (if any) `comments`, with `null` and `''` |
| FormTrees.PointTwoDown | src/app/forms/exemption-checklist/page.tsx:93-105 | a commented point two keys down is its own object, distinct from the top and middle objects, with exactly `value` and `comments`, comments `''` |
| FormTrees.GroupShape | src/app/forms/informed-consent/page.tsx:125-128 | a group of points is well formed iff its keys are distinct, with a point under each key and nothing else |
| FormTrees.GroupSnoc | src/app/forms/informed-consent/page.tsx:125-128 | a group extended by one key is that group with one more point |
| FormTrees.StringValue | src/app/forms/exemption-checklist/page.tsx:139 | the stored value is the input's string value |
| FormTrees.CheckboxAwareValue | src/app/forms/protocol-review/page.tsx:230 | a checkbox stores the boolean `checked`; every other input stores its string value |
| FormTrees.OrDefault | src/app/forms/protocol-review/page.tsx:214-221 | `data.key || fallback`: the field when non-empty, otherwise the fallback |
| ExemptionChecklist.ProtocolAssessmentWellFormed | src/app/forms/exemption-checklist/page.tsx:69-92 | the protocol assessment has distinct keys at every level |
| ExemptionChecklist.InitialWellFormed | src/app/forms/exemption-checklist/page.tsx:62-107 | the initial form has distinct keys at every level |
| ExemptionChecklist.TopChild | src/app/forms/exemption-checklist/page.tsx:62-107 | each top-level key leads to its initial value |
| ExemptionChecklist.AssessmentChild | src/app/forms/exemption-checklist/page.tsx:69-92 | each assessment key leads to its initial value |
| ExemptionChecklist.InitialInfoBlank | src/app/forms/exemption-checklist/page.tsx:63-68 | all protocol-information strings start as `''` |
| ExemptionChecklist.InitialAssessmentPoints | src/app/forms/exemption-checklist/page.tsx:69-106 | the four top yes/no points of the protocol assessment start as `{value: null}` |
| ExemptionChecklist.InitialRiskAndDecision | src/app/forms/exemption-checklist/page.tsx:69-106 | `foreseeableRisk` starts as `{value: null}`, and `dataAnonymity` and `decision` as `null` |
| ExemptionChecklist.InitialMethodPoints | src/app/forms/exemption-checklist/page.tsx:74-87 | every research-type and data-collection point is `{value: null}` |
| ExemptionChecklist.InitialRiskPoints | src/app/forms/exemption-checklist/page.tsx:93-105 | every risk point is `{value: null, comments: ''}` |
| FormTrees.DatedPrefill | src/app/forms/exemption-checklist/page.tsx:123-131 | overwrites exactly the five prefilled fields with strings (paper fields defaulting to `''`, and today's date) and keeps every other field; the informed consent page (informed-consent/page.tsx:147-155) does the same |
| ProtocolReview.AssessmentPointsWellFormed | src/app/forms/protocol-review/page.tsx:147-170 | the assessment points have distinct keys at every level |
| ProtocolReview.InitialWellFormed | src/app/forms/protocol-review/page.tsx:138-173 | the initial form has distinct keys at every level |
| ProtocolReview.TopChild | src/app/forms/protocol-review/page.tsx:138-173 | each top-level key leads to its initial value |
| ProtocolReview.AssessmentChild | src/app/forms/protocol-review/page.tsx:147-170 | each assessment key leads to its initial value |
| ProtocolReview.InitialChoices | src/app/forms/protocol-review/page.tsx:138-173 | the information strings start as `''`, `typeOfReview` as `Full Review`, `recommendation` as `Approved` |
| ProtocolReview.InitialPoints | src/app/forms/protocol-review/page.tsx:147-170 | social value plus 8 scientific and 9 ethical points, each `{value: null, comments: ''}` |
| ProtocolReview.WithoutTitle | src/app/forms/protocol-review/page.tsx:334 | keeps exactly the non-`title` keys, in order |
| ProtocolReview.SectionItems | src/app/forms/protocol-review/page.tsx:334 | a label list of `title` followed by the point keys renders exactly the point keys |
| ProtocolReview.ScientificSectionMatchesForm | src/app/forms/protocol-review/page.tsx:486-493 | the rendered scientific items are exactly the form's scientific points |
| ProtocolReview.EthicalSectionMatchesForm | src/app/forms/protocol-review/page.tsx:498-505 | the rendered ethical items are exactly the form's ethical points |
| ProtocolReview.Prefill | src/app/forms/protocol-review/page.tsx:211-222 | overwrites exactly the eight prefilled fields with strings (defaulting to `''`), keeps every other field, and copies a present non-empty `typeOfReview`, defaulting to `Full Review`, so it is never empty |
| InformedConsent.Put | src/app/forms/informed-consent/page.tsx:126 | spreading the accumulator and setting one key adds it at the end or replaces it in place |
| InformedConsent.ReducePoints | src/app/forms/informed-consent/page.tsx:125-128 | the reduce builds a node |
| InformedConsent.ReduceIsGroup | src/app/forms/informed-consent/page.tsx:125-128 | over distinct keys the reduce builds a group of points, one per key in order |
| InformedConsent.AssessmentPointsShape | src/app/forms/informed-consent/page.tsx:47-128 | 17 distinct label keys, and the initial points are their group |
| InformedConsent.InitialWellFormed | src/app/forms/informed-consent/page.tsx:118-131 | the initial form has distinct keys at every level |
| InformedConsent.InitialWithWellFormed | src/app/forms/informed-consent/page.tsx:118-131 | the initial form around any well-formed assessment node has distinct keys at every level |
| InformedConsent.AssessmentPointsWellFormed | src/app/forms/informed-consent/page.tsx:125-128 | the assessment points have distinct keys |
| InformedConsent.TopChild | src/app/forms/informed-consent/page.tsx:118-131 | each top-level key leads to its initial value |
| InformedConsent.AssessmentChild | src/app/forms/informed-consent/page.tsx:125-128 | the initial assessment points are the reduce's result |
| InformedConsent.InitialPoints | src/app/forms/informed-consent/page.tsx:47-128 | exactly the 17 label keys, each `{value: null, comments: ''}` |
| InformedConsent.InitialChoices | src/app/forms/informed-consent/page.tsx:118-131 | the information strings start as `''` and `recommendation` as `Approved` |
| ReviewForms.InitialTree | src/app/forms/informed-consent/page.tsx:118-131 | each form's initial state is a well-formed object |
| ReviewForms.CollectionName | src/app/forms/protocol-review/page.tsx:264 | each form writes to one of the three collections |
| ReviewForms.EventValue | src/app/forms/exemption-checklist/page.tsx:139 | the exemption form stores the string value; the other two store `checked` for checkboxes; never an object or null |
| ReviewForms.PrefillProps | src/app/forms/protocol-review/page.tsx:211-222 | prefill keeps every key and writes only strings |
| ReviewForms.Serialize | src/app/forms/exemption-checklist/page.tsx:173-181 | the stored form of a value: strings, booleans and null as themselves, undefined rejected; an object becomes a map with the same keys whose values are the stored forms of its properties one level down, and it is stored exactly when all of those are |
| ReviewForms.RecordOf | src/app/forms/exemption-checklist/page.tsx:174-181 | the record is the form's fields plus `reviewerId`, `reviewerCode` and `reviewerName`, and `createdAt` and `updatedAt`, both the store's clock at the write |
| ReviewForms.ReviewStore.constructor | src/app/forms/exemption-checklist/page.tsx:173 | the store starts empty |
| ReviewForms.ReviewStore.Add | src/app/forms/exemption-checklist/page.tsx:173-181 | appends the record to the named collection and changes nothing else |
| ReviewForms.LoadInitial | src/app/forms/exemption-checklist/page.tsx:62-107 | the module's `INITIAL_FORM_DATA` is one tree of new, closed objects for the form's initial state |
| ReviewForms.ReviewFormPage.constructor | src/app/forms/exemption-checklist/page.tsx:111-114 | a mount's state is the shared `INITIAL_FORM_DATA` object itself, with no error and no success |
| ReviewForms.ReviewFormPage.HandleInputChange | src/app/forms/exemption-checklist/page.tsx:135-157 | a single segment replaces one top-level field on a fresh copy; a dotted path assigns the leaf in place on the shared nested object; a throwing walk changes nothing |
| ReviewForms.ReviewFormPage.Prefill | src/app/forms/protocol-review/page.tsx:207-224 | with a stored paper the state becomes a fresh object with the prefilled fields; without one nothing changes |
| ReviewForms.ReviewFormPage.HandleSubmit | src/app/forms/exemption-checklist/page.tsx:159-194 | not logged in: an error and a redirect, with nothing written; a failed write: the form's failure message; success: the record is appended and the state is reset to `INITIAL_FORM_DATA` |
| ReviewForms.DrugsCommentsSplit | src/app/forms/exemption-checklist/page.tsx:225 | the field name `riskAssessment.drugs.comments` splits into its three keys |
| ReviewForms.DrugsCommentsInitially | src/app/forms/exemption-checklist/page.tsx:93-105 | in the initial objects the drugs comment is `''`, on an object distinct from the top and the risk objects |
| ReviewForms.EditReachesInitial | src/app/forms/exemption-checklist/page.tsx:135-157 | a nested edit writes through to the object shared with `INITIAL_FORM_DATA` |
| ReviewForms.EditDrugsComments | src/app/forms/exemption-checklist/page.tsx:135-157 | editing the drugs comments of an untouched exemption checklist leaves the typed note under that path of `INITIAL_FORM_DATA` |
| ReviewForms.NestedEditSurvivesReset | src/app/forms/exemption-checklist/page.tsx:135-187 | after a nested edit, if the submit succeeds, the reset state still holds the edited value |
| ReviewForms.NextMountSeesEdit | src/app/forms/exemption-checklist/page.tsx:111-157 | after a nested edit, the next mount of the page starts from the same object and shows the edited value where the first mount showed `''` |
| ReviewerSeed.RosterWellFormed | src/app/utils/initializeReviewers.ts:6-29 | 24 entries, with pairwise distinct codes and non-empty names |
| ReviewerSeed.SeedRecords | src/app/utils/initializeReviewers.ts:41-49 | one record per roster entry, in order, with its name and code, its own `createdAt` reading of the clock, and `isActive` true |
| ReviewerSeed.SeedIdempotent | src/app/utils/initializeReviewers.ts:35-58 | a second seeding writes nothing and returns false |
| ReviewerSeed.LookupDocs | src/app/utils/fetchReviewerData.ts:28-31 | the lookups read each record's document id, name and code |
| ReviewerSeed.SeededCodesResolve | src/app/utils/initializeReviewers.ts:6-29 | in a seeded collection every roster code resolves to its own name and document id |
| ReviewerSeed.ReviewerCollection.constructor | src/app/utils/initializeReviewers.ts:34-35 | a collection with the given records |
| ReviewerSeed.ReviewerCollection.Initialize | src/app/utils/initializeReviewers.ts:32-62 | an empty collection gets the 24 roster records and true; a non-empty one is untouched and gives false; a rejected call changes nothing |
| ResearchUpload.FieldOrEmpty | src/app/utils/uploadJsonToFirestore.ts:15-19 | `item[key] \|\| ""`: the value when it is present and truthy, otherwise `""` |
| ResearchUpload.CleanData | src/app/utils/uploadJsonToFirestore.ts:13-21 | exactly the five fields, each the row's truthy value or `""` |
| ResearchUpload.CleanDataIdempotent | src/app/utils/uploadJsonToFirestore.ts:13-21 | cleaning a cleaned row changes nothing |
| ResearchUpload.DocOf | src/app/utils/uploadJsonToFirestore.ts:38-48 | the five cleaned fields are renamed to `mainFolder`, `reviewer`, `document`, `link` and `progress`, and both timestamps are now |
| ResearchUpload.PrefixedIdsDistinct | src/app/utils/uploadJsonToFirestore.ts:29-31 | the prefixed id ends in the 1-based row number, and distinct rows get distinct ids |
| ResearchUpload.DocId | src/app/utils/uploadJsonToFirestore.ts:29-35 | `prefix_{i+1}` under a truthy prefix, otherwise the store's generated id |
| ResearchUpload.DocIds | src/app/utils/uploadJsonToFirestore.ts:28-35 | one id per row, in row order |
| ResearchUpload.DocsOf | src/app/utils/uploadJsonToFirestore.ts:28-48 | one document per row, in row order |
| ResearchUpload.BatchKeys | src/app/utils/uploadJsonToFirestore.ts:28-40 | the batch writes exactly the rows' ids |
| ResearchUpload.BatchSnoc | src/app/utils/uploadJsonToFirestore.ts:40 | one more row is one more write |
| ResearchUpload.BatchHoldsEveryRow | src/app/utils/uploadJsonToFirestore.ts:28-48 | with distinct ids every row's document is written under its id |
| ResearchUpload.BatchSize | src/app/utils/uploadJsonToFirestore.ts:28-48 | with distinct ids there is exactly one document per row |
| ResearchUpload.PrefixedUploadOneDocPerRow | src/app/utils/uploadJsonToFirestore.ts:28-48 | under a prefix, document `prefix_k` holds the k-th row, and there are as many documents as rows |
| ResearchUpload.FailureMessage | src/app/utils/uploadJsonToFirestore.ts:55 | the error's message when non-empty, otherwise `Unknown error` |
| ResearchUpload.ResearchStore.constructor | src/app/utils/uploadJsonToFirestore.ts:25-26 | no collections |
| ResearchUpload.BuildBatch | src/app/utils/uploadJsonToFirestore.ts:28-49 | the `forEach` queues one cleaned document per row under the row's id: the batch is the specified `Batch` of the row ids and documents |
| ResearchUpload.ResearchStore.UploadResearchData | src/app/utils/uploadJsonToFirestore.ts:23-57 | success merges the batch into the named collection and names it in the message; failure writes nothing and reports the error's message or `Unknown error` |

## Left out

- Store and file-store I/O is not modelled: the queries, batches, uploads and download URLs. Snapshots are parameters, and each call that can reject is a boolean parameter.
- The read-then-write race between two concurrent submissions is not modelled. One submission over one fixed snapshot is modelled.
- Clocks are parameters, and their values are strings. Where one parameter stands for several readings, the model assumes they agree:
  - the current year: `Submission.UserDashboard.HandleSubmit`'s one `year` stands for both readings, the one for the identifier (src/app/user/page.tsx:135) and the one for the record's `year` field (src/app/user/page.tsx:221);
  - the seed's `new Date()`: `dates`, one reading per roster record;
  - the prefill's `new Date()`: `today`;
  - the bulk upload's `new Date()`: the `now` of `ResearchUpload.DocOf`, `ResearchUpload.DocsOf` and `ResearchUpload.ResearchStore.UploadResearchData` is a client clock reading. One value stands for all 2n readings, two per row (`createdAt` and `updatedAt`, src/app/utils/uploadJsonToFirestore.ts:46-47);
  - `serverTimestamp()`: the store's clock when it applies a review or application write (`now`, `at`). Every timestamp field of that write reads it;
  - the conversion of `createdAt.seconds` to an ISO date, given as the optional `createdDate` string.
- Browser plumbing is not modelled: React state hooks, `sessionStorage` and `JSON.parse`, `router.push`, the `setTimeout` redirect delay, loading flags, modals, and rendering. A redirect is a stored route string.
- The label and question texts of the forms are not modelled. Only their keys are, which is what the forms' state and rendering rely on.
- Casing is ASCII only: `toUpperCase` maps `a`–`z` and leaves every other character unchanged. Strings are sequences of characters, with no Unicode handling.
- Property order is not modelled: objects are maps, and what the store writes is a map.
- ReviewForms.Serialize: writing a state object is modelled by a conversion to stored documents with a nesting limit of 20 (`MaxDepth`). Undefined values and deeper nesting are rejected, which takes the failure path. The store's own limits are not modelled.
- ReviewForms.ReviewFormPage.HandleInputChange: when the walk reaches `null` or `undefined`, the updater throws. React calls it again while rendering, where it throws again, and the page fails with an uncaught error. The model keeps the state as it was instead, and does not model the failure. No field path the three pages render reaches that case: every rendered point path exists in the initial state (`ExemptionChecklist.InitialRiskPoints`, `ExemptionChecklist.InitialMethodPoints`, `ProtocolReview.ScientificSectionMatchesForm`, `ProtocolReview.EthicalSectionMatchesForm`, `InformedConsent.InitialPoints`).
- JsObjects.Get: only an object's own properties are modelled. Keys a plain object inherits (`constructor`, `toString`, `__proto__`) read as `undefined`, where JavaScript gives a function or `Object.prototype`. So in `JsObjects.SetAtPath` and `ReviewForms.ReviewFormPage.HandleInputChange`, a dotted field path through such a key (`__proto__.x`) throws and changes nothing in the model, while the page assigns on the prototype object. No field path the three pages render walks through an inherited key.
- ResearchUpload.Json: numbers are integers. `NaN`, and floating point in general, are not modelled.
- ResearchUpload.ResearchStore.UploadResearchData: the store's generated ids are a parameter. Their uniqueness is assumed by the lemmas about them, not modelled.

## Findings

| source | as written | input that shows it | evidently intended | confidence | as-written member | corrected member |
|---|---|---|---|---|---|---|
| src/app/user/page.tsx:146-155 | the scan matches `SPUP_\d{4}_(\d{5})_SR_[A-Z]{2}`, but the identifiers it generates can have initials that are not two capitals, or a number of six or more digits | investigator `Maria Santos (PI)` gets initials `M(`. Its identifier is invisible to the scan, so the next submission under that name is given the same identifier and `setDoc` overwrites the first application | every generated identifier is seen by later scans, so no identifier is given out twice | not executed | Submission.SameNameOverwrites, Submission.AsWrittenRegeneratesId, Submission.InitialsWithParenthesis | Submission.FreshIdNotInSnapshot, Submission.SubmitNeverOverwrites |
