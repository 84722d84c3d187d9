/**
 * Reviewer lookup by access code and the list of papers assigned to a
 * reviewer, built from the `reviewers` and `applications` collections.
 * Both collections are given as snapshots in the store's order.
 */
module ReviewerLookup {
  import opened Wrappers
  import opened Applications

  /** A `reviewers` document: its id and its `name` and `code` fields (`""` for a missing name). */
  datatype ReviewerDoc = ReviewerDoc(docId: string, name: string, code: string)

  /** The position of the first reviewer whose code equals `code` exactly. */
  function FirstWithCode(reviewers: seq<ReviewerDoc>, code: string): (r: Option<nat>)
    ensures r.Some? ==> r.value < |reviewers| && reviewers[r.value].code == code &&
                        forall j :: 0 <= j < r.value ==> reviewers[j].code != code
    ensures r.None? ==> forall j :: 0 <= j < |reviewers| ==> reviewers[j].code != code
  {
    if reviewers == [] then None
    else if reviewers[0].code == code then Some(0)
    else
      match FirstWithCode(reviewers[1..], code)
      case None => None
      case Some(i) => Some(i + 1)
  }

  /** `getReviewerName`: the first match's name, or nothing when there is no match or its name is empty. */
  function GetReviewerName(reviewers: seq<ReviewerDoc>, code: string): (name: Option<string>)
    ensures name.Some? <==> FirstWithCode(reviewers, code).Some? &&
                            reviewers[FirstWithCode(reviewers, code).value].name != ""
    ensures name.Some? ==> name.value == reviewers[FirstWithCode(reviewers, code).value].name
  {
    match FirstWithCode(reviewers, code)
    case None => None
    case Some(i) => if reviewers[i].name == "" then None else Some(reviewers[i].name)
  }

  /** `getReviewerId`: the first match's document id, or nothing when there is no match. */
  function GetReviewerId(reviewers: seq<ReviewerDoc>, code: string): (id: Option<string>)
    ensures id.Some? <==> exists j :: 0 <= j < |reviewers| && reviewers[j].code == code
    ensures id.Some? ==> id.value == reviewers[FirstWithCode(reviewers, code).value].docId
  {
    match FirstWithCode(reviewers, code)
    case None => None
    case Some(i) => Some(reviewers[i].docId)
  }

  /**
   * Both lookups read the same first match: a resolved name always comes
   * with the id of the same document, and a code held by a single reviewer
   * resolves to that reviewer.
   */
  lemma LookupsAgree(reviewers: seq<ReviewerDoc>, code: string, i: nat)
    requires i < |reviewers| && reviewers[i].code == code
    requires forall j :: 0 <= j < |reviewers| && j != i ==> reviewers[j].code != code
    ensures GetReviewerId(reviewers, code) == Some(reviewers[i].docId)
    ensures reviewers[i].name != "" ==> GetReviewerName(reviewers, code) == Some(reviewers[i].name)
    ensures GetReviewerName(reviewers, code).Some? ==> GetReviewerId(reviewers, code).Some?
  {
    var r := FirstWithCode(reviewers, code);
    assert r == Some(i);
  }

  /** The label shown for a form code. */
  function FormLabel(form: string): (text: string)
    ensures text == "Protocol Review" <==> form == "protocol_review"
    ensures text == "Informed Consent" <==> form == "informed_consent"
    ensures text == "Exemption Checklist" <==> form == "exemption_checklist"
    ensures text == "" <==> form !in {"protocol_review", "informed_consent", "exemption_checklist"}
  {
    if form == "protocol_review" then "Protocol Review"
    else if form == "informed_consent" then "Informed Consent"
    else if form == "exemption_checklist" then "Exemption Checklist"
    else ""
  }

  /** One entry of a paper's `reviewerAssignments`. */
  datatype Assignment = Assignment(reviewerId: string, formType: string, form: string,
                                   reviewerName: string, status: string)

  /** One element of the list `fetchReviewerData` returns. */
  datatype ReviewerPaper = ReviewerPaper(id: string, principalInvestigator: string, status: string,
                                         assignments: map<SlotKey, Assignment>)

  /** The slot exists and holds the reviewer's name. */
  predicate SlotHolds(app: Application, k: SlotKey, name: string) {
    SlotOf(app, k).Some? && SlotOf(app, k).value.reviewerName == name
  }

  /** The reviewer sits in at least one of the three slots. */
  predicate IsAssigned(app: Application, name: string) {
    SlotHolds(app, Reviewer1, name) || SlotHolds(app, Reviewer2, name) || SlotHolds(app, Reviewer3, name)
  }

  /** The assignment entry made from a matching slot. */
  function AssignmentOf(code: string, slot: Slot): (a: Assignment)
    ensures a.reviewerId == code && a.formType == FormLabel(slot.form)
    ensures a.form == slot.form && a.reviewerName == slot.reviewerName && a.status == slot.status
  {
    Assignment(code, FormLabel(slot.form), slot.form, slot.reviewerName, slot.status)
  }

  /** One step of filling the dictionary: add slot `k`'s entry when it holds the name. */
  function AddIfHolds(m: map<SlotKey, Assignment>, app: Application, k: SlotKey, name: string, code: string)
    : map<SlotKey, Assignment>
  {
    if SlotHolds(app, k, name) then m[k := AssignmentOf(code, SlotOf(app, k).value)] else m
  }

  /** The `reviewerAssignments` dictionary of a paper: `reviewer1`, `reviewer2`, `reviewer3` in turn. */
  function AssignmentsFor(app: Application, name: string, code: string): map<SlotKey, Assignment> {
    AddIfHolds(AddIfHolds(AddIfHolds(map[], app, Reviewer1, name, code),
                          app, Reviewer2, name, code), app, Reviewer3, name, code)
  }

  /** The dictionary holds exactly the slots holding the name, with the entries made from them. */
  lemma AssignmentsForKeys(app: Application, name: string, code: string)
    ensures var m := AssignmentsFor(app, name, code);
            (forall k :: k in m <==> SlotHolds(app, k, name)) &&
            (forall k :: k in m ==> m[k] == AssignmentOf(code, SlotOf(app, k).value))
  {
    var m := AssignmentsFor(app, name, code);
    forall k
      ensures k in m <==> SlotHolds(app, k, name)
      ensures k in m ==> m[k] == AssignmentOf(code, SlotOf(app, k).value)
    {
      match k
      case Reviewer1 =>
      case Reviewer2 =>
      case Reviewer3 =>
    }
  }

  /** The dictionary of one paper, filled slot by slot as the source does. */
  method BuildAssignments(app: Application, name: string, code: string)
    returns (assignments: map<SlotKey, Assignment>)
    ensures assignments == AssignmentsFor(app, name, code)
  {
    assignments := map[];
    if app.reviewer1.Some? && app.reviewer1.value.reviewerName == name {
      assignments := assignments[Reviewer1 := AssignmentOf(code, app.reviewer1.value)];
    }
    if app.reviewer2.Some? && app.reviewer2.value.reviewerName == name {
      assignments := assignments[Reviewer2 := AssignmentOf(code, app.reviewer2.value)];
    }
    if app.reviewer3.Some? && app.reviewer3.value.reviewerName == name {
      assignments := assignments[Reviewer3 := AssignmentOf(code, app.reviewer3.value)];
    }
  }

  function PaperFor(app: Application, name: string, code: string): ReviewerPaper {
    ReviewerPaper(app.id, app.principalInvestigator, app.status, AssignmentsFor(app, name, code))
  }

  /**
   * A paper lists exactly the slots that hold the name, each with the code
   * as its reviewer id and the slot's form and status unchanged; it has an
   * entry precisely when the application is assigned to the reviewer.
   */
  lemma PaperAssignments(app: Application, name: string, code: string)
    ensures var p := PaperFor(app, name, code);
            p.id == app.id && p.principalInvestigator == app.principalInvestigator &&
            p.status == app.status &&
            (forall k :: k in p.assignments <==> SlotHolds(app, k, name)) &&
            (forall k :: k in p.assignments ==>
               p.assignments[k] == AssignmentOf(code, SlotOf(app, k).value)) &&
            (p.assignments != map[] <==> IsAssigned(app, name))
  {
    var p := PaperFor(app, name, code);
    AssignmentsForKeys(app, name, code);
    if IsAssigned(app, name) {
      if SlotHolds(app, Reviewer1, name) {
        assert Reviewer1 in p.assignments;
      } else if SlotHolds(app, Reviewer2, name) {
        assert Reviewer2 in p.assignments;
      } else {
        assert Reviewer3 in p.assignments;
      }
    }
  }

  /** The papers of the reviewer called `name`, in the order of the applications snapshot. */
  function AssignedPapers(apps: seq<Application>, name: string, code: string): seq<ReviewerPaper> {
    if apps == [] then []
    else
      var front := AssignedPapers(apps[..|apps| - 1], name, code);
      var last := apps[|apps| - 1];
      if IsAssigned(last, name) then front + [PaperFor(last, name, code)] else front
  }

  /** The positions of the assigned applications, in increasing order. */
  function AssignedIndices(apps: seq<Application>, name: string): seq<nat> {
    if apps == [] then []
    else
      var front := AssignedIndices(apps[..|apps| - 1], name);
      if IsAssigned(apps[|apps| - 1], name) then front + [|apps| - 1] else front
  }

  /**
   * The papers are the assigned applications, each exactly once and in
   * snapshot order: the j-th paper comes from the j-th assigned position,
   * the positions increase, and a position is listed precisely when that
   * application holds the name in some slot.
   */
  lemma AssignedPapersSelect(apps: seq<Application>, name: string, code: string)
    ensures var papers := AssignedPapers(apps, name, code);
            var ix := AssignedIndices(apps, name);
            |papers| == |ix| &&
            (forall j :: 0 <= j < |ix| ==> ix[j] < |apps| && papers[j] == PaperFor(apps[ix[j]], name, code)) &&
            (forall j, j' :: 0 <= j < j' < |ix| ==> ix[j] < ix[j']) &&
            (forall i :: 0 <= i < |apps| ==> (i in ix <==> IsAssigned(apps[i], name)))
  {
    AssignedIndicesSelect(apps, name);
    AssignedPapersAt(apps, name, code);
  }

  /** The assigned positions are in range, increasing, and exactly those of the assigned applications. */
  lemma {:induction false} AssignedIndicesSelect(apps: seq<Application>, name: string)
    ensures var ix := AssignedIndices(apps, name);
            (forall j :: 0 <= j < |ix| ==> ix[j] < |apps|) &&
            (forall j, j' :: 0 <= j < j' < |ix| ==> ix[j] < ix[j']) &&
            (forall i :: 0 <= i < |apps| ==> (i in ix <==> IsAssigned(apps[i], name)))
  {
    if apps != [] {
      var n := |apps| - 1;
      var front := apps[..n];
      AssignedIndicesSelect(front, name);
      var ix := AssignedIndices(apps, name);
      var fx := AssignedIndices(front, name);
      if IsAssigned(apps[n], name) {
        assert ix == fx + [n];
      } else {
        assert ix == fx;
      }
      forall i | 0 <= i < |apps|
        ensures i in ix <==> IsAssigned(apps[i], name)
      {
        if i < n {
          assert front[i] == apps[i];
        }
      }
    }
  }

  /** The j-th paper is the paper of the j-th assigned application. */
  lemma {:induction false} AssignedPapersAt(apps: seq<Application>, name: string, code: string)
    ensures var papers := AssignedPapers(apps, name, code);
            var ix := AssignedIndices(apps, name);
            |papers| == |ix| &&
            forall j :: 0 <= j < |ix| ==> ix[j] < |apps| && papers[j] == PaperFor(apps[ix[j]], name, code)
  {
    AssignedIndicesSelect(apps, name);
    if apps != [] {
      var n := |apps| - 1;
      var front := apps[..n];
      AssignedPapersAt(front, name, code);
      var papers := AssignedPapers(apps, name, code);
      var ix := AssignedIndices(apps, name);
      var fp := AssignedPapers(front, name, code);
      var fx := AssignedIndices(front, name);
      if IsAssigned(apps[n], name) {
        assert papers == fp + [PaperFor(apps[n], name, code)];
        assert ix == fx + [n];
      } else {
        assert papers == fp && ix == fx;
      }
      forall j | 0 <= j < |ix|
        ensures papers[j] == PaperFor(apps[ix[j]], name, code)
      {
        if j < |fx| {
          assert front[fx[j]] == apps[fx[j]];
        }
      }
    }
  }

  /** With distinct application ids, no paper is listed twice. */
  lemma AssignedPapersDistinct(apps: seq<Application>, name: string, code: string)
    requires forall i, i' :: 0 <= i < i' < |apps| ==> apps[i].id != apps[i'].id
    ensures var papers := AssignedPapers(apps, name, code);
            forall j, j' :: 0 <= j < j' < |papers| ==> papers[j].id != papers[j'].id
  {
    AssignedPapersSelect(apps, name, code);
  }

  /** A paper is listed for an application precisely when it is assigned to the reviewer. */
  lemma AssignedPapersMembership(apps: seq<Application>, name: string, code: string, app: Application)
    requires app in apps
    ensures PaperFor(app, name, code) in AssignedPapers(apps, name, code) <==> IsAssigned(app, name)
  {
    AssignedPapersSelect(apps, name, code);
    PaperAssignments(app, name, code);
    var papers := AssignedPapers(apps, name, code);
    var ix := AssignedIndices(apps, name);
    var i :| 0 <= i < |apps| && apps[i] == app;
    if IsAssigned(app, name) {
      var j :| 0 <= j < |ix| && ix[j] == i;
      assert papers[j] == PaperFor(app, name, code);
    } else if PaperFor(app, name, code) in papers {
      var j :| 0 <= j < |papers| && papers[j] == PaperFor(app, name, code);
      PaperAssignments(apps[ix[j]], name, code);
      assert false;
    }
  }

  /** Every listed paper has at least one assignment, and each of them holds the reviewer's name. */
  lemma AssignedPapersNonEmpty(apps: seq<Application>, name: string, code: string)
    ensures forall p :: p in AssignedPapers(apps, name, code) ==>
              p.assignments != map[] &&
              forall k :: k in p.assignments ==> p.assignments[k].reviewerName == name
  {
    AssignedPapersSelect(apps, name, code);
    var papers := AssignedPapers(apps, name, code);
    var ix := AssignedIndices(apps, name);
    forall p | p in papers
      ensures p.assignments != map[] &&
              forall k :: k in p.assignments ==> p.assignments[k].reviewerName == name
    {
      var j :| 0 <= j < |papers| && papers[j] == p;
      PaperAssignments(apps[ix[j]], name, code);
    }
  }

  /** An application fresh from the submission page, with its three empty slots, is nobody's paper. */
  lemma EmptySlotsUnassigned(app: Application, name: string)
    requires app.reviewer1 == Some(EmptySlot) && app.reviewer2 == Some(EmptySlot)
    requires app.reviewer3 == Some(EmptySlot) && name != ""
    ensures !IsAssigned(app, name)
  {
    assert EmptySlot.reviewerName == "";
  }

  /**
   * `fetchReviewerData`: resolve the name, then scan the applications,
   * pushing one paper per assigned application.
   */
  method FetchReviewerData(reviewers: seq<ReviewerDoc>, apps: seq<Application>, code: string)
    returns (papers: seq<ReviewerPaper>)
    ensures GetReviewerName(reviewers, code).None? ==> papers == []
    ensures GetReviewerName(reviewers, code).Some? ==>
              papers == AssignedPapers(apps, GetReviewerName(reviewers, code).value, code)
  {
    var reviewerName := GetReviewerName(reviewers, code);
    if reviewerName.None? {
      return [];
    }
    var name := reviewerName.value;
    papers := [];
    for i := 0 to |apps|
      invariant papers == AssignedPapers(apps[..i], name, code)
    {
      assert apps[..i + 1][..i] == apps[..i];
      var app := apps[i];
      var isAssigned :=
        (app.reviewer1.Some? && app.reviewer1.value.reviewerName == name) ||
        (app.reviewer2.Some? && app.reviewer2.value.reviewerName == name) ||
        (app.reviewer3.Some? && app.reviewer3.value.reviewerName == name);
      if isAssigned {
        var assignments := BuildAssignments(app, name, code);
        papers := papers + [ReviewerPaper(app.id, app.principalInvestigator, app.status, assignments)];
      }
    }
    assert apps[..|apps|] == apps;
  }
}
