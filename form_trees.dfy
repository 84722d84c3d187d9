/**
 * Pieces shared by the three review forms: the shape of an assessment
 * point and of a group of points in the initial form literals, the value an
 * input event stores, the `data.x || default` reads of the prefill, and the
 * prefill the exemption checklist and the informed consent form share.
 */
module FormTrees {
  import opened Wrappers
  import opened JsObjects

  /** `{ value: null }`, or `{ value: null, comments: '' }` with comments. */
  function Point(withComments: bool): (t: Tree)
    ensures WellFormed(t) && TreeWalk(t, ["value"]) == Some(TNull)
    ensures withComments <==> TreeWalk(t, ["comments"]) == Some(TStr(""))
  {
    if withComments then TNode(["value", "comments"], [TNull, TStr("")])
    else TNode(["value"], [TNull])
  }

  /** A rendered point is an object holding `value: null`, and `comments: ''` when it has comments. */
  lemma PointDenotes(v: JsValue, withComments: bool, objs: set<JsObject>)
    requires Denotes(v, Point(withComments), objs)
    ensures v.Obj? && v.o in objs
    ensures v.o.props.Keys == if withComments then {"value", "comments"} else {"value"}
    ensures v.o.props["value"] == Null
    ensures withComments ==> v.o.props["comments"] == Str("")
  {
    var t := Point(withComments);
    assert (set i | 0 <= i < |t.keys| :: t.keys[i]) == if withComments then {"value", "comments"} else {"value"} by {
      if withComments {
        assert t.keys[0] == "value" && t.keys[1] == "comments";
      } else {
        assert t.keys[0] == "value";
      }
    }
    assert Denotes(v.o.props[t.keys[0]], t.kids[0], objs);
    if withComments {
      assert Denotes(v.o.props[t.keys[1]], t.kids[1], objs);
    }
  }

  /**
   * A point two keys below the root of a rendered form is an object of its
   * own: distinct from the root object and from the object between them.
   */
  lemma PointTwoDown(v: JsValue, t: Tree, a: string, b: string, objs: set<JsObject>)
    requires Denotes(v, t, objs) && TreeWalk(t, [a, b]) == Some(Point(true))
    requires a !in {"value", "comments"} && b !in {"value", "comments"}
    ensures v.Obj? && a in v.o.props && v.o.props[a].Obj?
    ensures var mid := v.o.props[a].o;
            mid in objs && b in mid.props && mid.props[b].Obj? &&
            var leaf := mid.props[b].o;
            leaf in objs && leaf.props.Keys == {"value", "comments"} && leaf.props["comments"] == Str("") &&
            leaf != v.o && leaf != mid
  {
    TreeWalkKeys(t, a, b, "");
    DenotesChild(v, t, a, objs);
    PointBelow(v.o.props[a], Child(t, a).value, b, objs);
    var leaf := v.o.props[a].o.props[b].o;
    assert a in v.o.props && a !in leaf.props;
  }

  /** A point one key below a rendered object is an object of its own. */
  lemma PointBelow(m: JsValue, t: Tree, b: string, objs: set<JsObject>)
    requires Denotes(m, t, objs) && Child(t, b) == Some(Point(true))
    requires b !in {"value", "comments"}
    ensures m.Obj? && m.o in objs && b in m.o.props && m.o.props[b].Obj?
    ensures var leaf := m.o.props[b].o;
            leaf in objs && leaf.props.Keys == {"value", "comments"} && leaf.props["comments"] == Str("") &&
            leaf != m.o
  {
    DenotesChild(m, t, b, objs);
    PointDenotes(m.o.props[b], true, objs);
    assert b !in m.o.props[b].o.props;
  }

  /** No key twice. */
  predicate Distinct(keys: seq<string>) {
    forall i, j :: 0 <= i < j < |keys| ==> keys[i] != keys[j]
  }

  /** An object literal holding one fresh assessment point per key. */
  function Group(keys: seq<string>, withComments: bool): Tree {
    TNode(keys, seq(|keys|, _ => Point(withComments)))
  }

  /** An object literal holding `''` under every key. */
  function Blanks(keys: seq<string>): Tree {
    TNode(keys, seq(|keys|, _ => TStr("")))
  }

  /** A group is well formed exactly when its keys are distinct, and each of its keys holds a point. */
  lemma GroupShape(keys: seq<string>, withComments: bool)
    ensures WellFormed(Group(keys, withComments)) <==> Distinct(keys)
    ensures forall k :: k in keys ==> Child(Group(keys, withComments), k) == Some(Point(withComments))
    ensures forall k :: k !in keys ==> Child(Group(keys, withComments), k).None?
  {
    var t := Group(keys, withComments);
    forall i | 0 <= i < |keys| ensures WellFormed(t.kids[i]) {
      assert t.kids[i] == Point(withComments);
    }
  }

  /** Each key of a group reached by one key leads one step further to a point. */
  lemma GroupAt(t: Tree, a: string, keys: seq<string>, withComments: bool)
    requires TreeWalk(t, [a]) == Some(Group(keys, withComments))
    ensures forall k :: k in keys ==> TreeWalk(t, [a, k]) == Some(Point(withComments))
  {
    GroupShape(keys, withComments);
    forall k | k in keys ensures TreeWalk(t, [a, k]) == Some(Point(withComments)) {
      TreeWalkKeys(t, a, k, "");
    }
  }

  /** Each key of a group reached by two keys leads one step further to a point. */
  lemma GroupBelow(t: Tree, a: string, b: string, keys: seq<string>, withComments: bool)
    requires TreeWalk(t, [a, b]) == Some(Group(keys, withComments))
    ensures forall k :: k in keys ==> TreeWalk(t, [a, b, k]) == Some(Point(withComments))
  {
    GroupShape(keys, withComments);
    forall k | k in keys ensures TreeWalk(t, [a, b, k]) == Some(Point(withComments)) {
      TreeWalkKeys(t, a, b, k);
    }
  }

  /** A group over one more key is the group with one more point appended. */
  lemma GroupSnoc(keys: seq<string>, key: string, withComments: bool)
    ensures Group(keys + [key], withComments) ==
            TNode(keys + [key], Group(keys, withComments).kids + [Point(withComments)])
  {
    assert Group(keys + [key], withComments).kids == Group(keys, withComments).kids + [Point(withComments)];
  }

  /** What an input event carries: the element's type, its string value and its checked state. */
  datatype InputEvent = InputEvent(inputType: string, value: string, checked: bool)

  /** The stored value when every input stores its string value. */
  function StringValue(ev: InputEvent): (v: JsValue)
    ensures v.Str? && v.s == ev.value
  {
    Str(ev.value)
  }

  /** The stored value when checkboxes store their checked state and other inputs their string value. */
  function CheckboxAwareValue(ev: InputEvent): (v: JsValue)
    ensures ev.inputType == "checkbox" ==> v == Bool(ev.checked)
    ensures ev.inputType != "checkbox" ==> v == Str(ev.value)
  {
    if ev.inputType == "checkbox" then Bool(ev.checked) else Str(ev.value)
  }

  /** The stored paper as parsed from the session: its string properties. */
  type PaperData = map<string, string>

  /** `data[key] || fallback`: the property when present and non-empty, the fallback otherwise. */
  function OrDefault(data: PaperData, key: string, fallback: string): (s: string)
    ensures key in data && data[key] != "" ==> s == data[key]
    ensures key !in data || data[key] == "" ==> s == fallback
    ensures s == "" ==> fallback == ""
  {
    if key in data && data[key] != "" then data[key] else fallback
  }

  /** The fields the exemption checklist and informed consent prefills write. */
  const DatedPrefilledKeys: set<string> :=
    {"spupRecProtocolCode", "protocolTitle", "principalInvestigator", "courseProgram", "submissionDate"}

  /**
   * The prefill of the exemption checklist, which the informed consent
   * form repeats field for field: the previous state with the protocol
   * code, title, principal investigator and course program copied from the
   * stored paper (each `''` when missing) and the submission date set to
   * today.
   */
  function DatedPrefill(prev: map<string, JsValue>, data: PaperData, today: string): (next: map<string, JsValue>)
    ensures next.Keys == prev.Keys + DatedPrefilledKeys
    ensures forall k :: k in prev && k !in DatedPrefilledKeys ==> next[k] == prev[k]
    ensures forall k :: k in DatedPrefilledKeys ==> next[k].Str?
    ensures next["spupRecProtocolCode"] == Str(OrDefault(data, "id", ""))
    ensures next["protocolTitle"] == Str(OrDefault(data, "researchTitle", ""))
    ensures next["principalInvestigator"] == Str(OrDefault(data, "principalInvestigator", ""))
    ensures next["courseProgram"] == Str(OrDefault(data, "courseProgram", ""))
    ensures next["submissionDate"] == Str(today)
  {
    prev["spupRecProtocolCode" := Str(OrDefault(data, "id", ""))]
        ["protocolTitle" := Str(OrDefault(data, "researchTitle", ""))]
        ["principalInvestigator" := Str(OrDefault(data, "principalInvestigator", ""))]
        ["courseProgram" := Str(OrDefault(data, "courseProgram", ""))]
        ["submissionDate" := Str(today)]
  }
}
