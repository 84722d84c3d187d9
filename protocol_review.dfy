/**
 * The protocol review form: its initial value, its prefill from the stored
 * paper, and the label sections whose entries, apart from `title`, are the
 * assessment points the page renders.
 */
module ProtocolReview {
  import opened Wrappers
  import opened JsObjects
  import opened FormTrees

  /** The protocol information fields, all `''` initially. */
  const InfoKeys: seq<string> :=
    ["spupRecProtocolCode", "submissionDate", "protocolTitle", "studySite", "principalInvestigator",
     "courseProgram", "sponsor"]

  const ScientificKeys: seq<string> :=
    ["studyObjectives", "literatureReview", "researchDesign", "dataCollection", "inclusionExclusionCriteria",
     "withdrawalCriteria", "facilities", "investigatorQualification"]

  const EthicalKeys: seq<string> :=
    ["privacyConfidentiality", "conflictOfInterest", "humanParticipants", "vulnerablePopulations",
     "participantSelection", "riskBenefitRatio", "informedConsent", "communityConsiderations",
     "collaborativeTerms"]

  const AssessmentKeys: seq<string> := ["socialValue", "scientificSoundness", "ethicalSoundness"]

  const TopKeys: seq<string> :=
    ["spupRecProtocolCode", "submissionDate", "protocolTitle", "studySite", "principalInvestigator",
     "courseProgram", "sponsor", "typeOfReview", "assessmentPoints", "recommendation", "justification"]

  /** `assessmentPoints` of the initial form. */
  function AssessmentPoints(): Tree {
    TNode(AssessmentKeys, [Point(true), Group(ScientificKeys, true), Group(EthicalKeys, true)])
  }

  /** `INITIAL_FORM_DATA`. */
  function Initial(): Tree {
    TNode(TopKeys,
          [TStr(""), TStr(""), TStr(""), TStr(""), TStr(""), TStr(""), TStr(""),
           TStr("Full Review"), AssessmentPoints(), TStr("Approved"), TStr("")])
  }

  lemma KeysDistinct()
    ensures Distinct(TopKeys) && Distinct(AssessmentKeys)
  {
  }

  lemma SectionKeysDistinct()
    ensures Distinct(ScientificKeys) && Distinct(EthicalKeys)
  {
  }

  lemma AssessmentPointsWellFormed()
    ensures WellFormed(AssessmentPoints())
  {
    SectionKeysDistinct();
    KeysDistinct();
    GroupShape(ScientificKeys, true);
    GroupShape(EthicalKeys, true);
    var kids := AssessmentPoints().kids;
    assert WellFormed(kids[0]) && WellFormed(kids[1]) && WellFormed(kids[2]);
    NodeWellFormed(AssessmentKeys, kids);
  }

  /** The initial literal has distinct keys at every level, so it can be evaluated. */
  lemma InitialWellFormed()
    ensures WellFormed(Initial())
  {
    AssessmentPointsWellFormed();
    KeysDistinct();
    var t := Initial();
    assert forall i :: 0 <= i < |t.kids| ==> WellFormed(t.kids[i]);
    NodeWellFormed(TopKeys, t.kids);
  }

  /** The top-level keys of the initial form lead to their children. */
  lemma TopChild(i: nat)
    requires i < |TopKeys|
    ensures TreeWalk(Initial(), [TopKeys[i]]) == Some(Initial().kids[i])
  {
    KeysDistinct();
    ChildAt(TopKeys, Initial().kids, i);
    TreeWalkKeys(Initial(), TopKeys[i], "", "");
  }

  /** The keys of `assessmentPoints` lead to their children. */
  lemma AssessmentChild(i: nat)
    requires i < |AssessmentKeys|
    ensures TreeWalk(Initial(), ["assessmentPoints", AssessmentKeys[i]]) == Some(AssessmentPoints().kids[i])
  {
    KeysDistinct();
    assert Initial().kids[8] == AssessmentPoints();
    GrandchildAt(TopKeys, Initial().kids, 8, i);
  }

  /**
   * Initially every protocol information field is `''`, the type of review
   * is `Full Review` and the recommendation is `Approved`.
   */
  lemma InitialChoices()
    ensures forall k :: k in InfoKeys ==> TreeWalk(Initial(), [k]) == Some(TStr(""))
    ensures TreeWalk(Initial(), ["typeOfReview"]) == Some(TStr("Full Review"))
    ensures TreeWalk(Initial(), ["recommendation"]) == Some(TStr("Approved"))
  {
    assert InfoKeys == TopKeys[..7];
    forall i | 0 <= i < 7 ensures TreeWalk(Initial(), [InfoKeys[i]]) == Some(TStr("")) {
      TopChild(i);
    }
    TopChild(7);
    TopChild(9);
  }

  /**
   * Initially all 18 assessment points, social value, the 8 scientific and
   * the 9 ethical ones, are `{ value: null, comments: '' }`.
   */
  lemma InitialPoints()
    ensures |ScientificKeys| == 8 && |EthicalKeys| == 9
    ensures TreeWalk(Initial(), ["assessmentPoints", "socialValue"]) == Some(Point(true))
    ensures forall k :: k in ScientificKeys ==>
              TreeWalk(Initial(), ["assessmentPoints", "scientificSoundness", k]) == Some(Point(true))
    ensures forall k :: k in EthicalKeys ==>
              TreeWalk(Initial(), ["assessmentPoints", "ethicalSoundness", k]) == Some(Point(true))
  {
    AssessmentChild(0);
    AssessmentChild(1);
    AssessmentChild(2);
    GroupShape(ScientificKeys, true);
    GroupShape(EthicalKeys, true);
    forall k | k in ScientificKeys
      ensures TreeWalk(Initial(), ["assessmentPoints", "scientificSoundness", k]) == Some(Point(true))
    {
      TreeWalkKeys(Initial(), "assessmentPoints", "scientificSoundness", k);
    }
    forall k | k in EthicalKeys
      ensures TreeWalk(Initial(), ["assessmentPoints", "ethicalSoundness", k]) == Some(Point(true))
    {
      TreeWalkKeys(Initial(), "assessmentPoints", "ethicalSoundness", k);
    }
  }

  /** The keys of the scientific soundness labels, in source order: its title, then one per point. */
  const ScientificLabelKeys: seq<string> :=
    ["title", "studyObjectives", "literatureReview", "researchDesign", "dataCollection",
     "inclusionExclusionCriteria", "withdrawalCriteria", "facilities", "investigatorQualification"]

  /** The keys of the ethical soundness labels, in source order: its title, then one per point. */
  const EthicalLabelKeys: seq<string> :=
    ["title", "privacyConfidentiality", "conflictOfInterest", "humanParticipants", "vulnerablePopulations",
     "participantSelection", "riskBenefitRatio", "informedConsent", "communityConsiderations",
     "collaborativeTerms"]

  /** The entries a section renders: its label keys in order, without `title`. */
  function WithoutTitle(keys: seq<string>): (items: seq<string>)
    ensures forall k :: k in items <==> k in keys && k != "title"
    ensures |items| <= |keys|
    ensures "title" !in keys ==> items == keys
    ensures |keys| > 0 && keys[0] == "title" && "title" !in keys[1..] ==> items == keys[1..]
  {
    if keys == [] then []
    else (if keys[0] == "title" then [] else [keys[0]]) + WithoutTitle(keys[1..])
  }

  /** A section's rendered entries are the label keys after its leading title. */
  lemma SectionItems(labelKeys: seq<string>, points: seq<string>)
    requires labelKeys == ["title"] + points && "title" !in points
    ensures WithoutTitle(labelKeys) == points
  {
    assert labelKeys[1..] == points;
  }

  /**
   * The rendered scientific section lists exactly the scientific points of
   * the initial form, in order, so each rendered entry reads and writes an
   * existing `{ value, comments }` point.
   */
  lemma ScientificSectionMatchesForm()
    ensures WithoutTitle(ScientificLabelKeys) == ScientificKeys
    ensures forall k :: k in WithoutTitle(ScientificLabelKeys) ==>
              TreeWalk(Initial(), ["assessmentPoints", "scientificSoundness", k]) == Some(Point(true))
  {
    SectionItems(ScientificLabelKeys, ScientificKeys);
    InitialPoints();
  }

  /** The same for the ethical section. */
  lemma EthicalSectionMatchesForm()
    ensures WithoutTitle(EthicalLabelKeys) == EthicalKeys
    ensures forall k :: k in WithoutTitle(EthicalLabelKeys) ==>
              TreeWalk(Initial(), ["assessmentPoints", "ethicalSoundness", k]) == Some(Point(true))
  {
    SectionItems(EthicalLabelKeys, EthicalKeys);
    InitialPoints();
  }

  /** The fields the prefill writes. */
  const PrefilledKeys: set<string> :=
    {"spupRecProtocolCode", "protocolTitle", "principalInvestigator", "courseProgram", "submissionDate",
     "studySite", "sponsor", "typeOfReview"}

  /**
   * The prefill: the previous state with the paper's fields copied (each
   * `''` when missing), the submission date taken from the paper's creation
   * date (`''` without one), and the type of review defaulting to
   * `Full Review`.
   */
  function Prefill(prev: map<string, JsValue>, data: PaperData, createdDate: Option<string>)
    : (next: map<string, JsValue>)
    ensures next.Keys == prev.Keys + PrefilledKeys
    ensures forall k :: k in prev && k !in PrefilledKeys ==> next[k] == prev[k]
    ensures forall k :: k in PrefilledKeys ==> next[k].Str?
    ensures next["spupRecProtocolCode"] == Str(OrDefault(data, "id", ""))
    ensures next["protocolTitle"] == Str(OrDefault(data, "researchTitle", ""))
    ensures next["principalInvestigator"] == Str(OrDefault(data, "principalInvestigator", ""))
    ensures next["courseProgram"] == Str(OrDefault(data, "courseProgram", ""))
    ensures next["studySite"] == Str(OrDefault(data, "studySite", ""))
    ensures next["sponsor"] == Str(OrDefault(data, "sponsor", ""))
    ensures next["submissionDate"] == Str(createdDate.GetOr(""))
    ensures next["typeOfReview"] == Str(OrDefault(data, "typeOfReview", "Full Review"))
    ensures next["typeOfReview"].s != ""
  {
    prev["spupRecProtocolCode" := Str(OrDefault(data, "id", ""))]
        ["protocolTitle" := Str(OrDefault(data, "researchTitle", ""))]
        ["principalInvestigator" := Str(OrDefault(data, "principalInvestigator", ""))]
        ["courseProgram" := Str(OrDefault(data, "courseProgram", ""))]
        ["submissionDate" := Str(createdDate.GetOr(""))]
        ["studySite" := Str(OrDefault(data, "studySite", ""))]
        ["sponsor" := Str(OrDefault(data, "sponsor", ""))]
        ["typeOfReview" := Str(OrDefault(data, "typeOfReview", "Full Review"))]
  }
}
