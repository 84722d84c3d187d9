/**
 * The exemption checklist form: its initial value. Its prefill from the
 * stored paper is `FormTrees.DatedPrefill`, and every input of this form
 * stores its string value.
 */
module ExemptionChecklist {
  import opened Wrappers
  import opened JsObjects
  import opened FormTrees

  /** The protocol information fields, all `''` initially. */
  const InfoKeys: seq<string> :=
    ["spupRecProtocolCode", "submissionDate", "protocolTitle", "studySite", "principalInvestigator", "sponsor"]

  /** The yes/no points at the top of the protocol assessment. */
  const YesNoKeys: seq<string> := ["humanParticipants", "biologicalSamples", "publicData", "humanInteraction"]

  const ResearchTypeKeys: seq<string> :=
    ["qualityAssurance", "publicServiceEvaluation", "healthSurveillance", "educationalEvaluation", "consumerTest"]

  const DataCollectionKeys: seq<string> :=
    ["surveys", "interviews", "publicObservations", "existingData", "recordings"]

  /** The risk points, the only ones that carry comments. */
  const RiskKeys: seq<string> :=
    ["vulnerableGroups", "sensitiveTopics", "drugs", "invasiveProcedure", "physicalStress",
     "psychologicalStress", "deception", "dataAccess", "conflictOfInterest", "otherEthicalDilemmas",
     "bloodSampling"]

  const AssessmentKeys: seq<string> :=
    ["humanParticipants", "biologicalSamples", "publicData", "humanInteraction",
     "researchType", "dataCollection", "dataAnonymity", "dataAnonymityComments", "foreseeableRisk"]

  const TopKeys: seq<string> :=
    ["spupRecProtocolCode", "submissionDate", "protocolTitle", "studySite", "principalInvestigator", "sponsor",
     "protocolAssessment", "riskAssessment", "decision", "justification"]

  /** `protocolAssessment` of the initial form. */
  function ProtocolAssessment(): Tree {
    TNode(AssessmentKeys,
          [Point(false), Point(false), Point(false), Point(false),
           Group(ResearchTypeKeys, false), Group(DataCollectionKeys, false), TNull, TStr(""), Point(false)])
  }

  /** `INITIAL_FORM_DATA`. */
  function Initial(): Tree {
    TNode(TopKeys,
          [TStr(""), TStr(""), TStr(""), TStr(""), TStr(""), TStr(""),
           ProtocolAssessment(), Group(RiskKeys, true), TNull, TStr("")])
  }

  lemma KeysDistinct()
    ensures Distinct(TopKeys) && Distinct(AssessmentKeys)
  {
  }

  lemma GroupKeysDistinct()
    ensures Distinct(ResearchTypeKeys) && Distinct(DataCollectionKeys) && Distinct(RiskKeys)
  {
  }

  /** The initial literal has distinct keys at every level, so it can be evaluated. */
  lemma ProtocolAssessmentWellFormed()
    ensures WellFormed(ProtocolAssessment())
  {
    KeysDistinct();
    GroupKeysDistinct();
    GroupShape(ResearchTypeKeys, false);
    GroupShape(DataCollectionKeys, false);
    var kids := ProtocolAssessment().kids;
    assert forall i :: 0 <= i < |kids| ==> WellFormed(kids[i]);
    NodeWellFormed(AssessmentKeys, kids);
  }

  lemma InitialWellFormed()
    ensures WellFormed(Initial())
  {
    ProtocolAssessmentWellFormed();
    KeysDistinct();
    GroupKeysDistinct();
    GroupShape(RiskKeys, true);
    var t := Initial();
    assert forall i :: 0 <= i < |t.kids| ==> WellFormed(t.kids[i]);
    NodeWellFormed(TopKeys, t.kids);
  }

  /** The top-level keys of the initial form lead to their children. */
  lemma TopChild(i: nat)
    requires i < |TopKeys|
    ensures TreeWalk(Initial(), [TopKeys[i]]) == Some(Initial().kids[i])
  {
    KeysDistinct();
    ChildAt(TopKeys, Initial().kids, i);
    TreeWalkKeys(Initial(), TopKeys[i], "", "");
  }

  /** The keys of `protocolAssessment` lead to their children. */
  lemma AssessmentChild(i: nat)
    requires i < |AssessmentKeys|
    ensures TreeWalk(Initial(), ["protocolAssessment", AssessmentKeys[i]]) == Some(ProtocolAssessment().kids[i])
  {
    KeysDistinct();
    assert Initial().kids[6] == ProtocolAssessment();
    GrandchildAt(TopKeys, Initial().kids, 6, i);
  }

  /** Initially every protocol information field is `''`. */
  lemma InitialInfoBlank()
    ensures forall k :: k in InfoKeys ==> TreeWalk(Initial(), [k]) == Some(TStr(""))
  {
    assert InfoKeys == TopKeys[..6];
    forall i | 0 <= i < 6 ensures TreeWalk(Initial(), [InfoKeys[i]]) == Some(TStr("")) {
      TopChild(i);
    }
  }

  /** Initially the four top yes/no points are `{ value: null }`. */
  lemma InitialAssessmentPoints()
    ensures forall k :: k in YesNoKeys ==> TreeWalk(Initial(), ["protocolAssessment", k]) == Some(Point(false))
  {
    assert YesNoKeys == AssessmentKeys[..4];
    forall i | 0 <= i < 4
      ensures TreeWalk(Initial(), ["protocolAssessment", YesNoKeys[i]]) == Some(Point(false))
    {
      AssessmentChild(i);
    }
  }

  /**
   * Initially the foreseeable risk is `{ value: null }`, and
   * `dataAnonymity` and `decision` are `null`.
   */
  lemma InitialRiskAndDecision()
    ensures TreeWalk(Initial(), ["protocolAssessment", "foreseeableRisk"]) == Some(Point(false))
    ensures TreeWalk(Initial(), ["protocolAssessment", "dataAnonymity"]) == Some(TNull)
    ensures TreeWalk(Initial(), ["decision"]) == Some(TNull)
  {
    AssessmentChild(8);
    assert AssessmentKeys[8] == "foreseeableRisk";
    AssessmentChild(6);
    assert AssessmentKeys[6] == "dataAnonymity";
    TopChild(8);
    assert TopKeys[8] == "decision";
  }

  /** Initially every research type and every data collection method is `{ value: null }`. */
  lemma InitialMethodPoints()
    ensures forall k :: k in ResearchTypeKeys ==>
              TreeWalk(Initial(), ["protocolAssessment", "researchType", k]) == Some(Point(false))
    ensures forall k :: k in DataCollectionKeys ==>
              TreeWalk(Initial(), ["protocolAssessment", "dataCollection", k]) == Some(Point(false))
  {
    AssessmentChild(4);
    assert AssessmentKeys[4] == "researchType";
    GroupBelow(Initial(), "protocolAssessment", "researchType", ResearchTypeKeys, false);
    AssessmentChild(5);
    assert AssessmentKeys[5] == "dataCollection";
    GroupBelow(Initial(), "protocolAssessment", "dataCollection", DataCollectionKeys, false);
  }

  /** Initially every risk point is `{ value: null, comments: '' }`. */
  lemma InitialRiskPoints()
    ensures forall k :: k in RiskKeys ==> TreeWalk(Initial(), ["riskAssessment", k]) == Some(Point(true))
  {
    TopChild(7);
    assert TopKeys[7] == "riskAssessment";
    GroupAt(Initial(), "riskAssessment", RiskKeys, true);
  }
}
