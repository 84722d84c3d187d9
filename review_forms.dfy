/**
 * The page shared by the three review forms: the form state held as a
 * JavaScript object, the nested-path input handler, the prefill from the
 * stored paper, and the submit that writes one record and resets the form.
 */
module ReviewForms {
  import opened Wrappers
  import opened Text
  import opened JsObjects
  import opened FormTrees
  import ExemptionChecklist
  import ProtocolReview
  import InformedConsent

  datatype FormKind = Exemption | Protocol | Consent

  /** `INITIAL_FORM_DATA` of each form. */
  function InitialTree(kind: FormKind): (t: Tree)
    ensures t.TNode? && WellFormed(t)
  {
    match kind
    case Exemption => ExemptionChecklist.InitialWellFormed(); ExemptionChecklist.Initial()
    case Protocol => ProtocolReview.InitialWellFormed(); ProtocolReview.Initial()
    case Consent => InformedConsent.InitialWellFormed(); InformedConsent.Initial()
  }

  /** The collection each form writes to. */
  function CollectionName(kind: FormKind): (name: string)
    ensures name in {"exemption-checklists", "protocols", "informed-consents"}
  {
    match kind
    case Exemption => "exemption-checklists"
    case Protocol => "protocols"
    case Consent => "informed-consents"
  }

  /** The message each form shows when the write fails. */
  function FailureMessage(kind: FormKind): string {
    match kind
    case Exemption => "Failed to submit exemption checklist review"
    case Protocol => "Failed to submit protocol review"
    case Consent => "Failed to submit informed consent review"
  }

  /**
   * The value `handleInputChange` stores: the exemption checklist always
   * stores the string value, radios included; the other two forms store a
   * checkbox's checked state and any other input's string value. It is
   * never an object.
   */
  function EventValue(kind: FormKind, ev: InputEvent): (v: JsValue)
    ensures !v.Obj? && !v.Null? && !v.Undefined?
    ensures kind.Exemption? ==> v == Str(ev.value)
    ensures !kind.Exemption? ==>
              (v.Bool? <==> ev.inputType == "checkbox") && (v.Bool? ==> v.b == ev.checked) &&
              (v.Str? ==> v.s == ev.value)
  {
    if kind.Exemption? then StringValue(ev) else CheckboxAwareValue(ev)
  }

  /** The prefill of each form. */
  function PrefillProps(kind: FormKind, prev: map<string, JsValue>, data: PaperData, today: string,
                        createdDate: Option<string>): (next: map<string, JsValue>)
    ensures prev.Keys <= next.Keys
    ensures forall k :: k in next ==> next[k].Str? || (k in prev && next[k] == prev[k])
  {
    match kind
    case Exemption => DatedPrefill(prev, data, today)
    case Protocol => ProtocolReview.Prefill(prev, data, createdDate)
    case Consent => DatedPrefill(prev, data, today)
  }

  // ---------------------------------------------------------------------
  // What the store keeps

  /**
   * A stored field value: the store serializes nested objects into maps,
   * and `serverTimestamp()` becomes the store's clock at the write.
   */
  datatype Doc = DNull | DStr(s: string) | DBool(b: bool) | DMap(fields: map<string, Doc>) | DTimestamp(at: string)

  /** The deepest nesting of maps the store accepts. */
  const MaxDepth: nat := 20

  /**
   * The stored form of a value, read at the moment of the write: nothing
   * for `undefined` or for nesting deeper than `depth`, which the store
   * rejects.
   */
  function Serialize(v: JsValue, heap: set<JsObject>, depth: nat): (d: Option<Doc>)
    requires InHeap(v, heap) && Closed(heap)
    reads heap
    ensures v.Str? ==> d == Some(DStr(v.s))
    ensures v.Bool? ==> d == Some(DBool(v.b))
    ensures v.Null? <==> d == Some(DNull)
    ensures v.Undefined? ==> d.None?
    ensures d.Some? && v.Obj? ==> depth > 0 && d.value.DMap? && d.value.fields.Keys == v.o.props.Keys
    ensures d.Some? && v.Obj? && depth > 0 ==>
              forall k :: k in v.o.props ==> Serialize(v.o.props[k], heap, depth - 1) == Some(d.value.fields[k])
    ensures v.Obj? && depth > 0 && (forall k :: k in v.o.props ==> Serialize(v.o.props[k], heap, depth - 1).Some?) ==>
              d.Some?
    decreases depth
  {
    match v
    case Undefined => None
    case Null => Some(DNull)
    case Str(s) => Some(DStr(s))
    case Bool(b) => Some(DBool(b))
    case Obj(o) =>
      if depth == 0 then None
      else if forall k :: k in o.props ==> Serialize(o.props[k], heap, depth - 1).Some? then
        Some(DMap(map k | k in o.props :: Serialize(o.props[k], heap, depth - 1).value))
      else None
  }

  /** Who is logged in, as the shared reviewer context holds it. */
  datatype Identity = Identity(reviewerId: Option<string>, reviewerCode: string, reviewerName: Option<string>)

  /** All three identity fields are truthy. */
  predicate LoggedIn(who: Identity) {
    who.reviewerId.Some? && who.reviewerId.value != "" && who.reviewerCode != "" &&
    who.reviewerName.Some? && who.reviewerName.value != ""
  }

  /** The identity and timestamp fields added to every record. */
  const AddedKeys: set<string> := {"reviewerId", "reviewerCode", "reviewerName", "createdAt", "updatedAt"}

  /**
   * The written record: the form's top-level fields, as stored, followed by
   * the reviewer id, code and name and the `createdAt` and `updatedAt`
   * server timestamps, taken at `now`; these override form fields of the
   * same name.
   */
  function RecordOf(form: map<string, Doc>, who: Identity, now: string): (record: map<string, Doc>)
    requires LoggedIn(who)
    ensures record.Keys == form.Keys + AddedKeys
    ensures forall k :: k in form && k !in AddedKeys ==> record[k] == form[k]
    ensures record["reviewerId"] == DStr(who.reviewerId.value)
    ensures record["reviewerCode"] == DStr(who.reviewerCode)
    ensures record["reviewerName"] == DStr(who.reviewerName.value)
    ensures record["createdAt"] == record["updatedAt"] == DTimestamp(now)
  {
    form["reviewerId" := DStr(who.reviewerId.value)]
        ["reviewerCode" := DStr(who.reviewerCode)]
        ["reviewerName" := DStr(who.reviewerName.value)]
        ["createdAt" := DTimestamp(now)]
        ["updatedAt" := DTimestamp(now)]
  }

  /** The records of a collection, none when it does not exist yet. */
  function Records(collections: map<string, seq<map<string, Doc>>>, name: string): seq<map<string, Doc>> {
    if name in collections then collections[name] else []
  }

  /** The review collections of the store. */
  class ReviewStore {
    var collections: map<string, seq<map<string, Doc>>>

    constructor()
      ensures collections == map[]
    {
      collections := map[];
    }

    /** `addDoc`: append one record to a collection. */
    method Add(name: string, record: map<string, Doc>)
      modifies this
      ensures collections == old(collections)[name := Records(old(collections), name) + [record]]
    {
      collections := collections[name := Records(collections, name) + [record]];
    }
  }

  // ---------------------------------------------------------------------
  // The page

  /**
   * Loading a form page's module evaluates its `INITIAL_FORM_DATA` literal
   * once: a tree of new objects for the kind's initial form, which every
   * later mount of the page shares.
   */
  method LoadInitial(kind: FormKind) returns (initial: JsObject, heap: set<JsObject>)
    ensures fresh(heap) && initial in heap && Closed(heap)
    ensures Denotes(Obj(initial), InitialTree(kind), heap)
  {
    var v, objs := Materialize(InitialTree(kind));
    initial, heap := v.o, objs;
  }

  class ReviewFormPage {
    const kind: FormKind
    /** `INITIAL_FORM_DATA`: one object tree, evaluated once, that `formData` starts as and is reset to. */
    const initial: JsObject
    /** Every object of the form state. */
    var heap: set<JsObject>
    var formData: JsObject
    var error: string
    var success: bool
    /** The route pushed, if any. */
    var redirect: Option<string>

    ghost predicate Valid()
      reads this, heap
    {
      initial in heap && formData in heap && Closed(heap)
    }

    /**
     * A mount of the page: `useState(INITIAL_FORM_DATA)` starts the state
     * as the module's one `INITIAL_FORM_DATA` object itself, in whatever
     * state earlier mounts left it.
     */
    constructor(kind: FormKind, initial: JsObject, heap: set<JsObject>)
      requires initial in heap && Closed(heap)
      ensures Valid() && this.kind == kind && this.initial == initial && this.heap == heap
      ensures formData == initial
      ensures error == "" && !success && redirect.None?
    {
      this.kind := kind;
      this.initial := initial;
      formData := initial;
      this.heap := heap;
      error := "";
      success := false;
      redirect := None;
    }

    /**
     * `handleInputChange(e, field)`. A field without a dot gives a new state
     * object with that field replaced. A dotted field gives a new top-level
     * object whose nested objects are those of the previous state, and
     * assigns the value in place on the object reached by all but the last
     * segment; every other object is untouched. When a step of that walk
     * reaches `null` or `undefined` the updater throws and the state stays
     * as it was.
     */
    method HandleInputChange(field: string, ev: InputEvent)
      requires Valid()
      modifies this, heap
      ensures Valid()
      ensures error == old(error) && success == old(success) && redirect == old(redirect)
      ensures var parts := Split(field, '.');
              var value := EventValue(kind, ev);
              if |parts| == 1 then
                fresh(formData) && heap == old(heap) + {formData} &&
                formData.props == old(formData.props)[field := value] &&
                forall o :: o in old(heap) ==> o.props == old(o.props)
              else
                var target := old(Walk(Obj(formData), parts[..|parts| - 1], heap));
                if target.Some? && target.value.Obj? then
                  fresh(formData) && heap == old(heap) + {formData} &&
                  formData.props == old(formData.props) &&
                  target.value.o.props == old(target.value.o.props)[parts[|parts| - 1] := value] &&
                  forall o :: o in old(heap) && o != target.value.o ==> o.props == old(o.props)
                else
                  formData == old(formData) && heap == old(heap) &&
                  forall o :: o in old(heap) ==> o.props == old(o.props)
    {
      var value := EventValue(kind, ev);
      var next := SetAtPath(formData, field, value, heap);
      if next.Some? {
        formData := next.value;
        heap := heap + {next.value};
      }
    }

    /**
     * The prefill effect, when the session holds a stored paper: a new state
     * object with the paper's fields written over the previous state.
     */
    method Prefill(stored: Option<PaperData>, today: string, createdDate: Option<string>)
      requires Valid()
      modifies this
      ensures Valid() && error == old(error) && success == old(success) && redirect == old(redirect)
      ensures stored.None? ==> formData == old(formData) && heap == old(heap)
      ensures stored.Some? ==>
                fresh(formData) && heap == old(heap) + {formData} &&
                formData.props == PrefillProps(kind, old(formData.props), stored.value, today, createdDate)
    {
      if stored.Some? {
        var props := PrefillProps(kind, formData.props, stored.value, today, createdDate);
        var o := new JsObject(props);
        ClosedWith(heap, o);
        formData := o;
        heap := heap + {o};
      }
    }

    /**
     * `handleSubmit`. Without a truthy reviewer id, code and name it reports
     * that a reviewer must log in, redirects to `/reviewer` and writes
     * nothing. Otherwise it writes the stored form of the state plus the
     * reviewer's identity and the write's timestamps, taken at `now`, to
     * the form's collection; on success it resets the state to
     * `INITIAL_FORM_DATA` and redirects, and on a failed write
     * (`writeFails`, or a state the store cannot hold) it reports the
     * form's failure message.
     */
    method HandleSubmit(who: Identity, store: ReviewStore, now: string, writeFails: bool)
      requires Valid()
      modifies this, store
      ensures Valid() && heap == old(heap)
      ensures var form := old(Serialize(Obj(formData), heap, MaxDepth));
              if !LoggedIn(who) then
                error == "Please log in as a reviewer first" && redirect == Some("/reviewer") &&
                formData == old(formData) && success == old(success) &&
                store.collections == old(store.collections)
              else if writeFails || form.None? then
                error == FailureMessage(kind) && !success && formData == old(formData) &&
                redirect == old(redirect) && store.collections == old(store.collections)
              else
                error == "" && success && formData == initial && redirect == Some("/reviewer") &&
                store.collections ==
                  old(store.collections)[CollectionName(kind) :=
                    Records(old(store.collections), CollectionName(kind)) + [RecordOf(form.value.fields, who, now)]]
    {
      if !LoggedIn(who) {
        error := "Please log in as a reviewer first";
        redirect := Some("/reviewer");
        return;
      }
      error := "";
      success := false;
      var form := Serialize(Obj(formData), heap, MaxDepth);
      if writeFails || form.None? {
        error := FailureMessage(kind);
        return;
      }
      store.Add(CollectionName(kind), RecordOf(form.value.fields, who, now));
      success := true;
      formData := initial;
      redirect := Some("/reviewer");
    }
  }

  /** `riskAssessment.drugs.comments` of the exemption checklist, as a path and as the field name the page passes. */
  const DrugsComments: seq<string> := ["riskAssessment", "drugs", "comments"]
  const DrugsCommentsField: string := "riskAssessment.drugs.comments"

  lemma DrugsCommentsSplit()
    ensures Split(DrugsCommentsField, '.') == DrugsComments
  {
    assert DrugsCommentsField == "riskAssessment" + ['.'] + "drugs" + ['.'] + "comments";
    SplitThree("riskAssessment", "drugs", "comments", '.');
  }

  /**
   * `riskAssessment.drugs` of `initial` is an object in the heap whose
   * comments are `''`, distinct from the two objects above it.
   */
  predicate DrugsPoint(initial: JsObject, heap: set<JsObject>)
    reads initial, heap
  {
    "riskAssessment" in initial.props && initial.props["riskAssessment"].Obj? &&
    var risk := initial.props["riskAssessment"].o;
    risk in heap && "drugs" in risk.props && risk.props["drugs"].Obj? &&
    var drugs := risk.props["drugs"].o;
    drugs in heap && "comments" in drugs.props && drugs.props["comments"] == Str("") &&
    drugs != initial && drugs != risk
  }

  /** In a rendering of the exemption checklist's initial value the drugs risk point is such an object. */
  lemma DrugsCommentsInitially(initial: JsObject, heap: set<JsObject>)
    requires initial in heap && Closed(heap) && Denotes(Obj(initial), ExemptionChecklist.Initial(), heap)
    ensures DrugsPoint(initial, heap)
  {
    ExemptionChecklist.InitialRiskPoints();
    assert "drugs" in ExemptionChecklist.RiskKeys;
    PointTwoDown(Obj(initial), ExemptionChecklist.Initial(), "riskAssessment", "drugs", heap);
  }

  /**
   * The aliasing consequence of the shallow copy, first half. On a fresh
   * exemption checklist a reviewer types `note` into the drugs risk
   * comments: the edit lands on the object shared with
   * `INITIAL_FORM_DATA`, which reads `note` afterwards where it read `''`
   * before.
   */
  method EditReachesInitial(note: string) returns (page: ReviewFormPage, before: Option<JsValue>)
    ensures fresh(page) && page.Valid() && page.kind == Exemption && !page.success
    ensures before == Some(Str(""))
    ensures Walk(Obj(page.initial), DrugsComments, page.heap) == Some(Str(note))
  {
    var initial, heap := LoadInitial(Exemption);
    page := new ReviewFormPage(Exemption, initial, heap);
    DrugsCommentsInitially(initial, page.heap);
    WalkKeys(Obj(initial), "riskAssessment", "drugs", "comments", page.heap);
    before := ReadPath(Obj(initial), DrugsComments, page.heap);
    DrugsCommentsSplit();
    EditDrugsComments(page, DrugsCommentsField, note);
  }

  /** The drugs-comments edit on an exemption checklist whose state is still `INITIAL_FORM_DATA`. */
  method EditDrugsComments(page: ReviewFormPage, field: string, note: string)
    requires page.Valid() && page.kind == Exemption && Split(field, '.') == DrugsComments
    requires page.formData == page.initial && DrugsPoint(page.initial, page.heap)
    modifies page, page.heap
    ensures page.Valid() && page.success == old(page.success)
    ensures Walk(Obj(page.initial), DrugsComments, page.heap) == Some(Str(note))
  {
    var initial := page.initial;
    var risk := initial.props["riskAssessment"].o;
    var drugs := risk.props["drugs"].o;
    WalkKeys(Obj(initial), "riskAssessment", "drugs", "comments", page.heap);
    assert DrugsComments[..2] == ["riskAssessment", "drugs"];
    page.HandleInputChange(field, InputEvent("textarea", note, false));
    assert initial.props["riskAssessment"] == Obj(risk);
    assert risk.props["drugs"] == Obj(drugs);
    assert drugs.props["comments"] == Str(note);
    WalkKeys(Obj(initial), "riskAssessment", "drugs", "comments", page.heap);
  }

  /**
   * Second half: when the submit succeeds and resets the form to
   * `INITIAL_FORM_DATA`, the reset form still shows the edit. The claim is
   * conditional on `submitted`: a reviewer who is not logged in stays on
   * the edited state, and so does a failed write.
   */
  method NestedEditSurvivesReset(who: Identity, store: ReviewStore, note: string, now: string)
    returns (before: Option<JsValue>, submitted: bool, afterReset: Option<JsValue>)
    modifies store
    ensures before == Some(Str(""))
    ensures submitted ==> afterReset == Some(Str(note))
  {
    var page;
    page, before := EditReachesInitial(note);
    page.HandleSubmit(who, store, now, false);
    submitted := page.success;
    afterReset := ReadPath(Obj(page.formData), DrugsComments, page.heap);
  }

  /**
   * Third consequence: the next mount of the checklist, for the next
   * paper, starts from the same `INITIAL_FORM_DATA` and so shows the
   * previous reviewer's note (`shown`) where the first mount showed `''`
   * (`pristine`).
   */
  method NextMountSeesEdit(note: string)
    returns (first: ReviewFormPage, second: ReviewFormPage, pristine: Option<JsValue>, shown: Option<JsValue>)
    ensures second.kind == Exemption && second.initial == first.initial && second.formData == first.initial
    ensures pristine == Some(Str(""))
    ensures shown == Some(Str(note))
  {
    first, pristine := EditReachesInitial(note);
    second := new ReviewFormPage(Exemption, first.initial, first.heap);
    shown := ReadPath(Obj(second.formData), DrugsComments, second.heap);
  }
}
