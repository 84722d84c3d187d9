/**
 * JavaScript values and plain objects as the review forms use them: a
 * form's state is a tree of mutable objects on the heap, its initial value
 * is written as an object literal, and `handleInputChange` assigns a leaf
 * at a dotted path after copying only the top level.
 */
module JsObjects {
  import opened Wrappers
  import opened Text

  /** A JavaScript value: the primitives the forms use, or a reference to an object. */
  datatype JsValue = Undefined | Null | Str(s: string) | Bool(b: bool) | Obj(o: JsObject)

  /** A plain object: its own enumerable properties. */
  class JsObject {
    var props: map<string, JsValue>

    constructor(props: map<string, JsValue>)
      ensures this.props == props
    {
      this.props := props;
    }
  }

  /** The value refers to no object outside `heap`. */
  predicate InHeap(v: JsValue, heap: set<JsObject>) {
    v.Obj? ==> v.o in heap
  }

  /** No object of `heap` refers to an object outside it. */
  predicate Closed(heap: set<JsObject>)
    reads heap
  {
    forall o, k :: o in heap && k in o.props ==> InHeap(o.props[k], heap)
  }

  /**
   * `v[key]`: a TypeError (nothing) on `null` and `undefined`, `undefined`
   * on a string or a boolean, and the property or `undefined` on an object.
   * A string's index properties (`"abc"["0"]` is `"a"`) are not modelled.
   * That cannot be observed here: from a string a walk reaches only
   * strings or `undefined`, and the input handler then assigns on what it
   * reached, which throws on any primitive in both readings. Only own
   * properties are modelled: a key the object inherits from
   * `Object.prototype` reads as `undefined` here.
   */
  function Get(v: JsValue, key: string, heap: set<JsObject>): (r: Option<JsValue>)
    requires InHeap(v, heap)
    reads heap
    ensures r.None? <==> v.Null? || v.Undefined?
    ensures v.Obj? ==> r == Some(if key in v.o.props then v.o.props[key] else Undefined)
    ensures Closed(heap) && r.Some? ==> InHeap(r.value, heap)
  {
    match v
    case Undefined => None
    case Null => None
    case Str(_) => Some(Undefined)
    case Bool(_) => Some(Undefined)
    case Obj(o) => Some(if key in o.props then o.props[key] else Undefined)
  }

  /** `v[path[0]][path[1]]...`: the value at the end of the path, or nothing when a step throws. */
  function Walk(v: JsValue, path: seq<string>, heap: set<JsObject>): (r: Option<JsValue>)
    requires InHeap(v, heap) && Closed(heap)
    reads heap
    ensures r.Some? ==> InHeap(r.value, heap)
  {
    if path == [] then Some(v)
    else
      match Walk(v, path[..|path| - 1], heap)
      case None => None
      case Some(u) => Get(u, path[|path| - 1], heap)
  }

  /** A walk along one more segment of `path` is one more property read. */
  lemma WalkPrefixStep(v: JsValue, path: seq<string>, i: nat, heap: set<JsObject>)
    requires InHeap(v, heap) && Closed(heap) && i < |path|
    ensures Walk(v, path[..i + 1], heap) ==
            match Walk(v, path[..i], heap)
            case None => None
            case Some(u) => Get(u, path[i], heap)
  {
    assert path[..i + 1][..i] == path[..i];
  }

  /** Once a step throws, every longer walk throws too. */
  lemma {:induction false} WalkThrowsOn(v: JsValue, path: seq<string>, i: nat, heap: set<JsObject>)
    requires InHeap(v, heap) && Closed(heap) && i <= |path|
    requires Walk(v, path[..i], heap).None?
    ensures Walk(v, path, heap).None?
    decreases |path| - i
  {
    if i < |path| {
      assert path[..i + 1][..i] == path[..i];
      WalkThrowsOn(v, path, i + 1, heap);
    } else {
      assert path[..i] == path;
    }
  }

  /**
   * The state updater of `handleInputChange(field, value)` applied to the
   * current state `prev`. A field without a dot gives a new object with
   * that one property replaced. A dotted field copies the top level, walks
   * the copy along all but the last segment and assigns the last segment on
   * the object reached, in place: that object is shared with `prev`, so the
   * previous state sees the change as well. Reaching `null`, `undefined`,
   * a string or a boolean throws a TypeError (nothing is returned, nothing
   * is changed).
   */
  method SetAtPath(prev: JsObject, field: string, value: JsValue, ghost heap: set<JsObject>)
    returns (next: Option<JsObject>)
    requires prev in heap && Closed(heap)
    modifies heap
    ensures var parts := Split(field, '.');
            if |parts| == 1 then
              next.Some? && fresh(next.value) && next.value.props == old(prev.props)[field := value] &&
              forall o :: o in heap ==> o.props == old(o.props)
            else
              var target := old(Walk(Obj(prev), parts[..|parts| - 1], heap));
              if target.Some? && target.value.Obj? then
                next.Some? && fresh(next.value) && next.value.props == old(prev.props) &&
                target.value.o in heap &&
                target.value.o.props == old(target.value.o.props)[parts[|parts| - 1] := value] &&
                forall o :: o in heap && o != target.value.o ==> o.props == old(o.props)
              else
                next.None? && forall o :: o in heap ==> o.props == old(o.props)
  {
    var parts := Split(field, '.');
    if |parts| == 1 {
      assert parts[0] == field by {
        assert Join(parts, '.') == field;
      }
      var copy := new JsObject(prev.props[field := value]);
      return Some(copy);
    }
    var newData := new JsObject(prev.props);
    var target := WalkFromCopy(prev, newData, parts[..|parts| - 1], heap);
    if target.None? || !target.value.Obj? {
      return None;
    }
    target.value.o.props := target.value.o.props[parts[|parts| - 1] := value];
    return Some(newData);
  }

  /**
   * The walk of `handleInputChange`'s updater: starting from the shallow
   * copy `copy` of `prev`, read each segment of `path` in turn. Reaching
   * `null` or `undefined` throws (nothing); a string or a boolean reads as
   * `undefined`. Because the copy shares every nested object with `prev`,
   * the result is exactly `prev`'s own walk, when that reaches an object.
   */
  method WalkFromCopy(prev: JsObject, copy: JsObject, path: seq<string>, ghost heap: set<JsObject>)
    returns (r: Option<JsValue>)
    requires prev in heap && Closed(heap) && copy.props == prev.props && |path| >= 1
    ensures r.Some? ==> r.value.Obj?
    ensures r.Some? <==> Walk(Obj(prev), path, heap).Some? && Walk(Obj(prev), path, heap).value.Obj?
    ensures r.Some? ==> r == Walk(Obj(prev), path, heap)
  {
    var current := Obj(copy);
    var i := 0;
    while i < |path|
      invariant 0 <= i <= |path|
      invariant i == 0 ==> current == Obj(copy)
      invariant i > 0 ==> Walk(Obj(prev), path[..i], heap) == Some(current)
    {
      WalkPrefixStep(Obj(prev), path, i, heap);
      if current.Null? || current.Undefined? {
        WalkThrowsOn(Obj(prev), path, i + 1, heap);
        return None;
      }
      current :=
        if current.Obj? then
          (if path[i] in current.o.props then current.o.props[path[i]] else Undefined)
        else Undefined;
      i := i + 1;
    }
    assert path[..i] == path;
    if !current.Obj? {
      return None;
    }
    return Some(current);
  }

  // ---------------------------------------------------------------------
  // Object literals

  /** An object literal of strings, `null` and nested literals, with its keys in source order. */
  datatype Tree = TNull | TStr(s: string) | TNode(keys: seq<string>, kids: seq<Tree>)

  /** One child per key and no key twice, all the way down. */
  predicate WellFormed(t: Tree) {
    match t
    case TNode(keys, kids) =>
      |keys| == |kids| && (forall i, j :: 0 <= i < j < |keys| ==> keys[i] != keys[j]) &&
      forall i :: 0 <= i < |kids| ==> WellFormed(kids[i])
    case _ => true
  }

  /** The heap value `v` is a fresh rendering of the literal `t` with its objects in `objs`. */
  predicate Denotes(v: JsValue, t: Tree, objs: set<JsObject>)
    reads objs
    decreases t
  {
    match t
    case TNull => v == Null
    case TStr(s) => v == Str(s)
    case TNode(keys, kids) =>
      v.Obj? && v.o in objs && |keys| == |kids| &&
      v.o.props.Keys == (set i | 0 <= i < |keys| :: keys[i]) &&
      forall i :: 0 <= i < |keys| ==> Denotes(v.o.props[keys[i]], kids[i], objs)
  }

  lemma {:induction false} DenotesMono(v: JsValue, t: Tree, a: set<JsObject>, b: set<JsObject>)
    requires Denotes(v, t, a) && a <= b
    ensures Denotes(v, t, b)
    decreases t
  {
    match t
    case TNode(keys, kids) =>
      forall i | 0 <= i < |keys|
        ensures Denotes(v.o.props[keys[i]], kids[i], b)
      {
        DenotesMono(v.o.props[keys[i]], kids[i], a, b);
      }
    case TNull =>
    case TStr(_) =>
  }

  /** Evaluating an object literal: every nested literal becomes a new object. */
  method Materialize(t: Tree) returns (v: JsValue, objs: set<JsObject>)
    requires WellFormed(t)
    ensures fresh(objs) && Closed(objs) && InHeap(v, objs) && Denotes(v, t, objs)
    decreases t
  {
    match t {
      case TNull =>
        v, objs := Null, {};
      case TStr(s) =>
        v, objs := Str(s), {};
      case TNode(keys, kids) =>
        var props: map<string, JsValue> := map[];
        objs := {};
        for i := 0 to |keys|
          invariant fresh(objs) && Closed(objs)
          invariant props.Keys == set j | 0 <= j < i :: keys[j]
          invariant forall j :: 0 <= j < i ==>
                      InHeap(props[keys[j]], objs) && Denotes(props[keys[j]], kids[j], objs)
        {
          var child, childObjs := Materialize(kids[i]);
          forall j | 0 <= j < i
            ensures Denotes(props[keys[j]], kids[j], objs + childObjs)
          {
            DenotesMono(props[keys[j]], kids[j], objs, objs + childObjs);
          }
          DenotesMono(child, kids[i], childObjs, objs + childObjs);
          props := props[keys[i] := child];
          objs := objs + childObjs;
        }
        var o := new JsObject(props);
        forall j | 0 <= j < |keys|
          ensures Denotes(props[keys[j]], kids[j], objs + {o})
        {
          DenotesMono(props[keys[j]], kids[j], objs, objs + {o});
        }
        objs := objs + {o};
        v := Obj(o);
    }
  }

  /** The position of `key` in `keys`. */
  function KeyIndex(keys: seq<string>, key: string): (i: nat)
    requires key in keys
    ensures i < |keys| && keys[i] == key
  {
    if keys[0] == key then 0 else 1 + KeyIndex(keys[1..], key)
  }

  /** The nested literal under `key`, when `t` is an object literal with that key. */
  function Child(t: Tree, key: string): Option<Tree> {
    if t.TNode? && key in t.keys && |t.keys| == |t.kids| then Some(t.kids[KeyIndex(t.keys, key)])
    else None
  }

  /** The nested literal at the end of a path of keys. */
  function TreeWalk(t: Tree, path: seq<string>): Option<Tree> {
    if path == [] then Some(t)
    else
      match TreeWalk(t, path[..|path| - 1])
      case None => None
      case Some(u) => Child(u, path[|path| - 1])
  }

  /** Reading a property of a rendered literal gives the rendering of the nested literal. */
  lemma DenotesChild(v: JsValue, t: Tree, key: string, objs: set<JsObject>)
    requires Denotes(v, t, objs) && Child(t, key).Some?
    ensures v.Obj? && v.o in objs && key in v.o.props
    ensures Denotes(v.o.props[key], Child(t, key).value, objs)
  {
    var i := KeyIndex(t.keys, key);
    assert key in v.o.props.Keys;
  }

  /** Walking a rendered literal follows the literal. */
  lemma {:induction false} DenotesWalk(v: JsValue, t: Tree, path: seq<string>, objs: set<JsObject>)
    requires Closed(objs) && InHeap(v, objs) && Denotes(v, t, objs) && TreeWalk(t, path).Some?
    ensures Walk(v, path, objs).Some? && Denotes(Walk(v, path, objs).value, TreeWalk(t, path).value, objs)
  {
    if path != [] {
      var front := path[..|path| - 1];
      DenotesWalk(v, t, front, objs);
      DenotesChild(Walk(v, front, objs).value, TreeWalk(t, front).value, path[|path| - 1], objs);
    }
  }

  /** The walk `current = current[part]`, performed on the heap. */
  method ReadPath(v: JsValue, path: seq<string>, ghost heap: set<JsObject>) returns (r: Option<JsValue>)
    requires InHeap(v, heap) && Closed(heap)
    ensures r == Walk(v, path, heap)
  {
    var current := v;
    for i := 0 to |path|
      invariant Walk(v, path[..i], heap) == Some(current)
    {
      assert path[..i + 1][..i] == path[..i];
      if current.Null? || current.Undefined? {
        WalkThrowsOn(v, path, i + 1, heap);
        return None;
      }
      current :=
        if current.Obj? then
          (if path[i] in current.o.props then current.o.props[path[i]] else Undefined)
        else Undefined;
    }
    assert path[..|path|] == path;
    return Some(current);
  }

  /** With distinct keys, the key at position `i` leads to the child at position `i`. */
  lemma ChildAt(keys: seq<string>, kids: seq<Tree>, i: nat)
    requires |keys| == |kids| && i < |keys|
    requires forall a, b :: 0 <= a < b < |keys| ==> keys[a] != keys[b]
    ensures Child(TNode(keys, kids), keys[i]) == Some(kids[i])
  {
    var j := KeyIndex(keys, keys[i]);
    assert keys[j] == keys[i];
  }

  /** One more step of a literal walk. */
  lemma TreeWalkSnoc(t: Tree, path: seq<string>, key: string)
    ensures TreeWalk(t, path + [key]) ==
            if TreeWalk(t, path).Some? then Child(TreeWalk(t, path).value, key) else None
  {
    assert (path + [key])[..|path|] == path;
  }

  /** An object literal with distinct keys over well-formed children is well formed. */
  lemma NodeWellFormed(keys: seq<string>, kids: seq<Tree>)
    requires |keys| == |kids|
    requires forall a, b :: 0 <= a < b < |keys| ==> keys[a] != keys[b]
    requires forall i :: 0 <= i < |kids| ==> WellFormed(kids[i])
    ensures WellFormed(TNode(keys, kids))
  {
  }

  /** A literal walk of one, two or three keys is that many `Child` steps. */
  lemma TreeWalkKeys(t: Tree, a: string, b: string, c: string)
    ensures TreeWalk(t, [a]) == Child(t, a)
    ensures TreeWalk(t, [a, b]) == if Child(t, a).Some? then Child(Child(t, a).value, b) else None
    ensures TreeWalk(t, [a, b, c]) ==
            if TreeWalk(t, [a, b]).Some? then Child(TreeWalk(t, [a, b]).value, c) else None
  {
    assert [a, b][..1] == [a];
    assert [a, b, c][..2] == [a, b];
  }

  /** A two-key walk into a nested literal with distinct keys at both levels. */
  lemma GrandchildAt(keys: seq<string>, kids: seq<Tree>, i: nat, j: nat)
    requires |keys| == |kids| && i < |keys|
    requires forall a, b :: 0 <= a < b < |keys| ==> keys[a] != keys[b]
    requires kids[i].TNode? && |kids[i].keys| == |kids[i].kids| && j < |kids[i].keys|
    requires forall a, b :: 0 <= a < b < |kids[i].keys| ==> kids[i].keys[a] != kids[i].keys[b]
    ensures TreeWalk(TNode(keys, kids), [keys[i], kids[i].keys[j]]) == Some(kids[i].kids[j])
  {
    ChildAt(keys, kids, i);
    ChildAt(kids[i].keys, kids[i].kids, j);
    TreeWalkKeys(TNode(keys, kids), keys[i], kids[i].keys[j], "");
  }

  /** Adding an object whose properties stay within the heap keeps the heap closed. */
  lemma ClosedWith(heap: set<JsObject>, o: JsObject)
    requires Closed(heap)
    requires forall k :: k in o.props ==> InHeap(o.props[k], heap + {o})
    ensures Closed(heap + {o})
  {
  }

  /** A walk of one, two or three keys is that many property reads. */
  lemma WalkKeys(v: JsValue, a: string, b: string, c: string, heap: set<JsObject>)
    requires InHeap(v, heap) && Closed(heap)
    ensures Walk(v, [a], heap) == Get(v, a, heap)
    ensures Walk(v, [a, b], heap) ==
            if Get(v, a, heap).Some? then Get(Get(v, a, heap).value, b, heap) else None
    ensures Walk(v, [a, b, c], heap) ==
            if Walk(v, [a, b], heap).Some? then Get(Walk(v, [a, b], heap).value, c, heap) else None
  {
    assert [a, b][..1] == [a];
    assert [a, b, c][..2] == [a, b];
  }
}
