/**
 * The reviewer dashboard: entering an access code, and opening the review
 * form of a listed paper.
 */
module ReviewerDashboard {
  import opened Wrappers
  import opened Text
  import opened Applications
  import opened ReviewerLookup

  /** What the page hands to the shared reviewer context: code, reviewer document id, name. */
  datatype ReviewerInfo = ReviewerInfo(code: string, id: string, name: string)

  /** The result of `handleFormNavigation`: nothing, an error message, or a route to push. */
  datatype Navigation = Stay | ShowError(message: string) | Go(route: string)

  /** The position of a slot key in insertion order. */
  function SlotIndex(k: SlotKey): nat {
    match k
    case Reviewer1 => 0
    case Reviewer2 => 1
    case Reviewer3 => 2
  }

  /** The first slot, in `reviewer1`, `reviewer2`, `reviewer3` order, whose entry holds the name. */
  function FirstAssignment(assignments: map<SlotKey, Assignment>, name: string): (r: Option<SlotKey>)
    ensures r.Some? ==> r.value in assignments && assignments[r.value].reviewerName == name
    ensures r.Some? ==> forall k :: k in assignments && SlotIndex(k) < SlotIndex(r.value) ==>
                          assignments[k].reviewerName != name
    ensures r.None? ==> forall k :: k in assignments ==> assignments[k].reviewerName != name
  {
    if Reviewer1 in assignments && assignments[Reviewer1].reviewerName == name then Some(Reviewer1)
    else if Reviewer2 in assignments && assignments[Reviewer2].reviewerName == name then Some(Reviewer2)
    else if Reviewer3 in assignments && assignments[Reviewer3].reviewerName == name then Some(Reviewer3)
    else
      assert forall k :: k in assignments ==> k.Reviewer1? || k.Reviewer2? || k.Reviewer3?;
      None
  }

  /** The route of a form code, if the form is one of the three known ones. */
  function FormRoute(form: string, paperId: string): (route: Option<string>)
    ensures route.Some? <==> form in {"protocol_review", "informed_consent", "exemption_checklist"}
    ensures form == "protocol_review" ==> route == Some("/forms/protocol-review/" + paperId)
    ensures form == "informed_consent" ==> route == Some("/forms/informed-consent/" + paperId)
    ensures form == "exemption_checklist" ==> route == Some("/forms/exemption-checklist/" + paperId)
  {
    if form == "protocol_review" then Some("/forms/protocol-review/" + paperId)
    else if form == "informed_consent" then Some("/forms/informed-consent/" + paperId)
    else if form == "exemption_checklist" then Some("/forms/exemption-checklist/" + paperId)
    else None
  }

  /**
   * `handleFormNavigation`: nothing without a reviewer name; an error when
   * no assignment holds the name; otherwise the route of the first such
   * assignment's form, or an error for an unknown form.
   */
  function FormNavigation(reviewerName: Option<string>, paper: ReviewerPaper): (nav: Navigation)
    ensures reviewerName.None? || reviewerName == Some("") ==> nav == Stay
    ensures var first := FirstAssignment(paper.assignments, reviewerName.GetOr(""));
            nav.Go? <==>
              reviewerName.GetOr("") != "" && first.Some? &&
              FormRoute(paper.assignments[first.value].form, paper.id).Some?
    ensures var first := FirstAssignment(paper.assignments, reviewerName.GetOr(""));
            nav.Go? ==>
              first.Some? && Some(nav.route) == FormRoute(paper.assignments[first.value].form, paper.id)
    ensures var first := FirstAssignment(paper.assignments, reviewerName.GetOr(""));
            nav == ShowError("Unknown form type") <==>
              reviewerName.GetOr("") != "" && first.Some? &&
              paper.assignments[first.value].form !in {"protocol_review", "informed_consent", "exemption_checklist"}
    ensures nav == ShowError("No form type found for this reviewer") <==>
              reviewerName.Some? && reviewerName.value != "" &&
              forall k :: k in paper.assignments ==> paper.assignments[k].reviewerName != reviewerName.value
    ensures nav.ShowError? ==> nav.message in {"No form type found for this reviewer", "Unknown form type"}
  {
    if reviewerName.None? || reviewerName.value == "" then Stay
    else
      match FirstAssignment(paper.assignments, reviewerName.value)
      case None => ShowError("No form type found for this reviewer")
      case Some(k) =>
        match FormRoute(paper.assignments[k].form, paper.id)
        case Some(route) => Go(route)
        case None => ShowError("Unknown form type")
  }

  /**
   * For a paper listed for the reviewer, navigation always finds an
   * assignment: it goes to the form of the first slot holding the name
   * when that form is known, and reports an unknown form otherwise.
   */
  lemma ListedPaperNavigates(apps: seq<Application>, name: string, code: string, paper: ReviewerPaper)
    requires name != "" && paper in AssignedPapers(apps, name, code)
    ensures var k := FirstAssignment(paper.assignments, name);
            k.Some? &&
            FormNavigation(Some(name), paper) ==
              match FormRoute(paper.assignments[k.value].form, paper.id)
              case Some(route) => Go(route)
              case None => ShowError("Unknown form type")
  {
    AssignedPapersNonEmpty(apps, name, code);
    var k :| k in paper.assignments;
  }

  /** The dashboard's state. */
  class Dashboard {
    var reviewerCode: string
    var reviewerName: Option<string>
    var reviewerId: Option<string>
    var papers: seq<ReviewerPaper>
    var error: string
    /** The shared reviewer context, set on a successful code entry. */
    var reviewerInfo: Option<ReviewerInfo>

    constructor()
      ensures reviewerCode == "" && reviewerName.None? && reviewerId.None?
      ensures papers == [] && error == "" && reviewerInfo.None?
    {
      reviewerCode := "";
      reviewerName := None;
      reviewerId := None;
      papers := [];
      error := "";
      reviewerInfo := None;
    }

    /**
     * `handleSubmit` over snapshots of the two collections. `lookupFails`
     * and `fetchFails` say whether the code lookups or the paper fetch
     * reject. A blank code changes nothing. A code that resolves to no
     * name or no id reports an invalid code and clears the reviewer.
     * Otherwise the reviewer is recorded, the papers are loaded, and an
     * empty list is reported.
     */
    method HandleSubmit(reviewers: seq<ReviewerDoc>, apps: seq<Application>,
                        lookupFails: bool, fetchFails: bool)
      modifies this
      ensures reviewerCode == old(reviewerCode)
      ensures var code := Trim(old(reviewerCode));
              var name := GetReviewerName(reviewers, code);
              var id := GetReviewerId(reviewers, code);
              if code == [] then
                reviewerName == old(reviewerName) && reviewerId == old(reviewerId) &&
                papers == old(papers) && error == old(error) && reviewerInfo == old(reviewerInfo)
              else if lookupFails then
                error == "Failed to fetch reviewer data" && reviewerName == old(reviewerName) &&
                reviewerId == old(reviewerId) && papers == old(papers) && reviewerInfo == old(reviewerInfo)
              else if name.None? || id.None? || id.value == "" then
                error == "Invalid reviewer code" && papers == [] && reviewerName.None? &&
                reviewerId.None? && reviewerInfo == old(reviewerInfo)
              else
                reviewerName == name && reviewerId == id &&
                reviewerInfo == Some(ReviewerInfo(code, id.value, name.value)) &&
                if fetchFails then
                  error == "Failed to fetch reviewer data" && papers == old(papers)
                else
                  papers == AssignedPapers(apps, name.value, code) &&
                  error == (if papers == [] then "No papers assigned for review" else "")
    {
      var code := Trim(reviewerCode);
      if code == [] {
        return;
      }
      error := "";
      if lookupFails {
        error := "Failed to fetch reviewer data";
        return;
      }
      var name := GetReviewerName(reviewers, code);
      var id := GetReviewerId(reviewers, code);
      if name.None? || id.None? || id.value == "" {
        error := "Invalid reviewer code";
        papers := [];
        reviewerName := None;
        reviewerId := None;
        return;
      }
      reviewerName := name;
      reviewerId := id;
      reviewerInfo := Some(ReviewerInfo(code, id.value, name.value));
      if fetchFails {
        error := "Failed to fetch reviewer data";
        return;
      }
      var data := FetchReviewerData(reviewers, apps, code);
      papers := data;
      if |data| == 0 {
        error := "No papers assigned for review";
      }
    }

    /** `handleFormNavigation`: sets the error message it reports and returns the route it pushes. */
    method HandleFormNavigation(paper: ReviewerPaper) returns (route: Option<string>)
      modifies this
      ensures var nav := FormNavigation(reviewerName, paper);
              (nav.Go? ==> route == Some(nav.route) && error == old(error)) &&
              (nav.ShowError? ==> route.None? && error == nav.message) &&
              (nav.Stay? ==> route.None? && error == old(error))
      ensures reviewerName == old(reviewerName) && reviewerId == old(reviewerId)
      ensures papers == old(papers) && reviewerInfo == old(reviewerInfo) && reviewerCode == old(reviewerCode)
    {
      var nav := FormNavigation(reviewerName, paper);
      match nav {
        case Stay =>
          route := None;
        case ShowError(message) =>
          error := message;
          route := None;
        case Go(r) =>
          route := Some(r);
      }
    }
  }
}
