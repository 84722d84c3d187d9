/**
 * The informed consent form: its initial value, whose assessment points are
 * built by folding over the label keys. Its prefill from the stored paper
 * is `FormTrees.DatedPrefill`, as on the exemption checklist.
 */
module InformedConsent {
  import opened Wrappers
  import opened JsObjects
  import opened FormTrees

  /** The keys of `ASSESSMENT_LABELS`, in source order. */
  const LabelKeys: seq<string> :=
    ["researchPurpose", "consentProcedures", "comprehensiveInformation", "protocolConsistency",
     "risksDisclosure", "understandableLanguage", "localTranslation", "vulnerableProtection",
     "consentTypes", "contactInformation", "privacyConfidentiality", "participationInducement",
     "supportProvision", "injuryTreatment", "compensationProvision", "participantResponsibilities",
     "benefitsDescription"]

  /** The protocol information fields, all `''` initially. */
  const InfoKeys: seq<string> :=
    ["spupRecProtocolCode", "submissionDate", "protocolTitle", "studySite", "principalInvestigator", "sponsor"]

  const TopKeys: seq<string> :=
    ["spupRecProtocolCode", "submissionDate", "protocolTitle", "studySite", "principalInvestigator", "sponsor",
     "assessmentPoints", "recommendation", "justification"]

  /**
   * `{ ...acc, [key]: child }`: an existing key keeps its position and gets
   * the new child, a new key is appended.
   */
  function Put(acc: Tree, key: string, child: Tree): (r: Tree)
    requires acc.TNode? && |acc.keys| == |acc.kids|
    ensures r.TNode? && |r.keys| == |r.kids|
    ensures key in acc.keys ==> r.keys == acc.keys
    ensures key !in acc.keys ==> r.keys == acc.keys + [key] && r.kids == acc.kids + [child]
    ensures Child(r, key) == Some(child)
  {
    if key in acc.keys then TNode(acc.keys, acc.kids[KeyIndex(acc.keys, key) := child])
    else
      assert forall j :: 0 <= j < |acc.keys| ==> (acc.keys + [key])[j] == acc.keys[j];
      TNode(acc.keys + [key], acc.kids + [child])
  }

  /** The fold over the label keys that builds `assessmentPoints`, one fresh point per key. */
  function ReducePoints(keys: seq<string>): (t: Tree)
    ensures t.TNode? && |t.keys| == |t.kids|
  {
    if keys == [] then TNode([], [])
    else Put(ReducePoints(keys[..|keys| - 1]), keys[|keys| - 1], Point(true))
  }

  /** Over distinct keys the fold gives one `{ value: null, comments: '' }` per key, in key order. */
  lemma {:induction false} ReduceIsGroup(keys: seq<string>)
    requires Distinct(keys)
    ensures ReducePoints(keys) == Group(keys, true)
  {
    if keys != [] {
      var front, last := keys[..|keys| - 1], keys[|keys| - 1];
      assert Distinct(front);
      ReduceIsGroup(front);
      assert last !in front by {
        forall i | 0 <= i < |front| ensures front[i] != last {
          assert keys[i] != keys[|keys| - 1];
        }
      }
      assert front + [last] == keys;
      GroupSnoc(front, last, true);
    }
  }

  /** `assessmentPoints` of the initial form, as built by the fold. */
  function AssessmentPoints(): Tree {
    ReducePoints(LabelKeys)
  }

  /** `INITIAL_FORM_DATA`, around the assessment points. */
  function InitialWith(points: Tree): Tree {
    TNode(TopKeys,
          [TStr(""), TStr(""), TStr(""), TStr(""), TStr(""), TStr(""),
           points, TStr("Approved"), TStr("")])
  }

  /** `INITIAL_FORM_DATA`. */
  function Initial(): Tree {
    InitialWith(AssessmentPoints())
  }

  /** The fold over the 17 distinct label keys is the group of their points. */
  lemma AssessmentPointsShape()
    ensures |LabelKeys| == 17 && Distinct(LabelKeys)
    ensures AssessmentPoints() == Group(LabelKeys, true)
  {
    assert Distinct(LabelKeys);
    ReduceIsGroup(LabelKeys);
  }

  /** The initial literal has distinct keys at every level, so it can be evaluated. */
  lemma InitialWellFormed()
    ensures WellFormed(Initial())
  {
    AssessmentPointsWellFormed();
    InitialWithWellFormed(AssessmentPoints());
  }

  lemma InitialWithWellFormed(points: Tree)
    requires WellFormed(points)
    ensures WellFormed(InitialWith(points))
  {
    var t := InitialWith(points);
    TopKeysDistinct();
    assert forall i :: 0 <= i < |t.kids| ==> WellFormed(t.kids[i]);
    NodeWellFormed(TopKeys, t.kids);
  }

  lemma TopKeysDistinct()
    ensures Distinct(TopKeys)
  {
  }

  lemma AssessmentPointsWellFormed()
    ensures WellFormed(AssessmentPoints())
  {
    AssessmentPointsShape();
    GroupShape(LabelKeys, true);
  }

  /** The top-level keys of the initial form lead to their children, whatever the points. */
  lemma TopChildWith(points: Tree, i: nat)
    requires i < |TopKeys|
    ensures TreeWalk(InitialWith(points), [TopKeys[i]]) == Some(InitialWith(points).kids[i])
  {
    TopKeysDistinct();
    ChildAt(TopKeys, InitialWith(points).kids, i);
    TreeWalkKeys(InitialWith(points), TopKeys[i], "", "");
  }

  lemma TopChild(i: nat)
    requires i < |TopKeys|
    ensures TreeWalk(Initial(), [TopKeys[i]]) == Some(Initial().kids[i])
  {
    TopChildWith(AssessmentPoints(), i);
  }

  /** A key under `assessmentPoints` leads to its child in the folded group. */
  lemma AssessmentChild(k: string)
    ensures TreeWalk(Initial(), ["assessmentPoints", k]) == Child(AssessmentPoints(), k)
  {
    TopChild(6);
    TreeWalkKeys(Initial(), "assessmentPoints", k, "");
  }

  /**
   * Initially `assessmentPoints` holds exactly the 17 label keys, each
   * `{ value: null, comments: '' }`.
   */
  lemma InitialPoints()
    ensures forall k :: k in LabelKeys ==> TreeWalk(Initial(), ["assessmentPoints", k]) == Some(Point(true))
    ensures forall k :: k !in LabelKeys ==> TreeWalk(Initial(), ["assessmentPoints", k]).None?
  {
    AssessmentPointsShape();
    GroupShape(LabelKeys, true);
    forall k ensures TreeWalk(Initial(), ["assessmentPoints", k]) == Child(Group(LabelKeys, true), k) {
      AssessmentChild(k);
    }
  }

  /** Initially every protocol information field is `''` and the recommendation is `Approved`. */
  lemma InitialChoices()
    ensures forall k :: k in InfoKeys ==> TreeWalk(Initial(), [k]) == Some(TStr(""))
    ensures TreeWalk(Initial(), ["recommendation"]) == Some(TStr("Approved"))
  {
    InfoBlankWith(AssessmentPoints());
    RecommendationWith(AssessmentPoints());
  }

  lemma InfoBlankWith(points: Tree)
    ensures forall k :: k in InfoKeys ==> TreeWalk(InitialWith(points), [k]) == Some(TStr(""))
  {
    assert InfoKeys == TopKeys[..6];
    forall i | 0 <= i < 6 ensures TreeWalk(InitialWith(points), [InfoKeys[i]]) == Some(TStr("")) {
      TopChildWith(points, i);
    }
  }

  lemma RecommendationWith(points: Tree)
    ensures TreeWalk(InitialWith(points), ["recommendation"]) == Some(TStr("Approved"))
  {
    TopChildWith(points, 7);
    assert TopKeys[7] == "recommendation";
  }
}
